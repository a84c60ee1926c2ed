/** The stable view does not depend on the provider's order, and exactly when one order of an array is required. */
module StableOrderLaws {
  import opened Wrappers
  import opened Ordering
  import opened UnicodeText
  import opened CanonicalJson
  import opened CanonicalForm
  import opened CanonicalEquality
  import opened StableOrder

  ghost predicate AreProper(items: seq<Json>) {
    forall i :: 0 <= i < |items| ==> IsProper(items[i])
  }

  ghost predicate AllSame(a: seq<Json>, b: seq<Json>) {
    |a| == |b| && forall i :: 0 <= i < |a| ==> SameValue(a[i], b[i])
  }

  lemma MemberOfPermutation<T>(a: seq<T>, b: seq<T>, i: nat) returns (j: nat)
    requires multiset(a) == multiset(b) && i < |b|
    ensures j < |a| && a[j] == b[i]
  {
    assert b[i] in multiset(a);
    j :| 0 <= j < |a| && a[j] == b[i];
  }

  lemma AcceptedPermutation(
      nfc: Nfc, primary: KeyFunction, identity: KeyFunction, a: seq<Json>, b: seq<Json>)
    requires multiset(a) == multiset(b) && IsAccepted(nfc, primary, identity, a)
    ensures IsAccepted(nfc, primary, identity, b)
  {
    forall i | 0 <= i < |b|
      ensures IsOrderable(nfc, primary, identity, b[i])
    {
      var j := MemberOfPermutation(a, b, i);
    }
    MappedPermutation(identity, a, b);
    var before, after := Mapped(identity, a), Mapped(identity, b);
    forall i, j | 0 <= i < j < |b|
      ensures identity(b[i]) != identity(b[j])
    {
      DistinctCounts(before, after[i]);
      if after[i] == after[j] {
        TwiceCounts(after, i, j);
      }
    }
  }

  lemma SameSortKey(nfc: Nfc, primary: KeyFunction, identity: KeyFunction, a: Json, b: Json)
    requires IsProper(a) && IsProper(b)
    requires IsOrderable(nfc, primary, identity, a) && IsOrderable(nfc, primary, identity, b)
    requires SortKey(nfc, primary, a) == SortKey(nfc, primary, b)
    ensures SameValue(a, b)
  {
    var ka, kb := SortKey(nfc, primary, a), SortKey(nfc, primary, b);
    assert ka[|ka| - 1] == kb[|kb| - 1];
    CanonicalDecidesEquality(nfc, a, b);
  }

  /** The view is the input, sorted by key and then by canonical bytes. */
  lemma ViewIsSortedPermutation(nfc: Nfc, primary: KeyFunction, identity: KeyFunction, items: seq<Json>)
    requires IsAccepted(nfc, primary, identity, items)
    ensures var view := StableView(nfc, primary, identity, items).value;
      && multiset(view) == multiset(items)
      && |view| == |items|
      && IsAccepted(nfc, primary, identity, view)
      && forall i, j :: 0 <= i < j < |view| ==>
           && KeyLeq(SortKey(nfc, primary, view[i]), SortKey(nfc, primary, view[j]))
           && InDictionaryOrder(ComponentLeq, SortKey(nfc, primary, view[i]), SortKey(nfc, primary, view[j]))
  {
    var key := SortKeyFor(nfc, primary);
    SortPermutes(key, KeyLeq, items);
    KeyOrder();
    SortSorts(key, KeyLeq, items);
    var view := StableView(nfc, primary, identity, items).value;
    AcceptedPermutation(nfc, primary, identity, items, view);
    forall i, j | 0 <= i < j < |view|
      ensures KeyLeq(SortKey(nfc, primary, view[i]), SortKey(nfc, primary, view[j]))
      ensures InDictionaryOrder(ComponentLeq, SortKey(nfc, primary, view[i]), SortKey(nfc, primary, view[j]))
    {
      assert KeyLeq(key(view[i]), key(view[j]));
      LexByFirstDifference(ComponentLeq, SortKey(nfc, primary, view[i]), SortKey(nfc, primary, view[j]));
    }
  }

  /** Items of one accepted array with the same identity are the same item. */
  lemma IdentityDecides(
      nfc: Nfc, primary: KeyFunction, identity: KeyFunction, items: seq<Json>, x: Json, y: Json)
    requires IsAccepted(nfc, primary, identity, items) && x in items && y in items && identity(x) == identity(y)
    ensures x == y
  {
  }

  /** An identity that does not tell equal JSON values apart. */
  ghost predicate RespectsValues(identity: KeyFunction) {
    forall a: Json, b: Json :: SameValue(a, b) ==> identity(a) == identity(b)
  }

  /**
   * Every order of the same items is accepted or refused alike, and has the same view: place by place the same
   * JSON values, and exactly the same items when the identity does not tell equal values apart.
   */
  lemma ViewIsPermutationInvariant(
      nfc: Nfc, primary: KeyFunction, identity: KeyFunction, a: seq<Json>, b: seq<Json>)
    requires multiset(a) == multiset(b) && AreProper(a)
    ensures StableView(nfc, primary, identity, a).Some? == StableView(nfc, primary, identity, b).Some?
    ensures StableView(nfc, primary, identity, a).Some? ==>
      var va, vb := StableView(nfc, primary, identity, a).value, StableView(nfc, primary, identity, b).value;
      AllSame(va, vb) && (RespectsValues(identity) ==> va == vb)
  {
    if IsAccepted(nfc, primary, identity, b) {
      AcceptedPermutation(nfc, primary, identity, b, a);
    }
    if IsAccepted(nfc, primary, identity, a) {
      AcceptedPermutation(nfc, primary, identity, a, b);
      var va, vb := StableView(nfc, primary, identity, a).value, StableView(nfc, primary, identity, b).value;
      ViewIsSortedPermutation(nfc, primary, identity, a);
      ViewIsSortedPermutation(nfc, primary, identity, b);
      SortedAlike(nfc, primary, a, b);
      forall i | 0 <= i < |va|
        ensures SameValue(va[i], vb[i])
        ensures RespectsValues(identity) ==> va[i] == vb[i]
      {
        var j := MemberOfPermutation(a, va, i);
        var k := MemberOfPermutation(a, vb, i);
        SameSortKey(nfc, primary, identity, va[i], vb[i]);
        if RespectsValues(identity) {
          IdentityDecides(nfc, primary, identity, a, va[i], vb[i]);
        }
      }
    }
  }

  lemma SortedAlike(nfc: Nfc, primary: KeyFunction, a: seq<Json>, b: seq<Json>)
    requires multiset(a) == multiset(b)
    ensures var key := SortKeyFor(nfc, primary);
      var va, vb := SortBy(key, KeyLeq, a), SortBy(key, KeyLeq, b);
      |va| == |vb| && forall i :: 0 <= i < |va| ==> SortKey(nfc, primary, va[i]) == SortKey(nfc, primary, vb[i])
  {
    var key := SortKeyFor(nfc, primary);
    var va, vb := SortBy(key, KeyLeq, a), SortBy(key, KeyLeq, b);
    KeyOrder();
    SortOfPermutation(key, KeyLeq, a, b);
    assert |va| == |Mapped(key, va)| == |Mapped(key, vb)| == |vb|;
    forall i | 0 <= i < |va|
      ensures SortKey(nfc, primary, va[i]) == SortKey(nfc, primary, vb[i])
    {
      assert Mapped(key, va)[i] == Mapped(key, vb)[i];
    }
  }

  // ----- the required order -----

  /** Python reads `False` and `True` as 0 and 1 when it compares with `==`. */
  function AsNumbers(v: Json): Json
    decreases v, 0
  {
    match v
    case Bool(value) => Int(if value then 1 else 0)
    case Arr(items) => Arr(ItemsAsNumbers(items))
    case Obj(members) => Obj(MembersAsNumbers(members))
    case _ => v
  }

  function ItemsAsNumbers(items: seq<Json>): (r: seq<Json>)
    ensures |r| == |items|
    ensures forall i :: 0 <= i < |r| ==> r[i] == AsNumbers(items[i])
    decreases items, 1
  {
    if items == [] then [] else [AsNumbers(items[0])] + ItemsAsNumbers(items[1..])
  }

  function MembersAsNumbers(members: seq<Member>): (r: seq<Member>)
    ensures |r| == |members|
    ensures forall i :: 0 <= i < |r| ==> r[i] == Member(members[i].key, AsNumbers(members[i].value))
    decreases members, 1
  {
    if members == [] then []
    else [Member(members[0].key, AsNumbers(members[0].value))] + MembersAsNumbers(members[1..])
  }

  /** Python's `a == b`. */
  ghost predicate PythonEqual(a: Json, b: Json) {
    SameValue(AsNumbers(a), AsNumbers(b))
  }

  /** `require_stable_array_order`. */
  ghost predicate IsInRequiredOrder(nfc: Nfc, primary: KeyFunction, identity: KeyFunction, items: seq<Json>) {
    var view := StableView(nfc, primary, identity, items);
    view.Some? && |view.value| == |items| && forall i :: 0 <= i < |items| ==> PythonEqual(items[i], view.value[i])
  }

  lemma {:induction false} AsNumbersIsEncodable(nfc: Nfc, v: Json)
    requires IsEncodable(nfc, v)
    ensures IsEncodable(nfc, AsNumbers(v))
    decreases v
  {
    match v
    case Obj(members) =>
      EncodableMembers(nfc, members);
      var numbers := MembersAsNumbers(members);
      forall i | 0 <= i < |members|
        ensures IsEncodable(nfc, numbers[i].value)
      {
        AsNumbersIsEncodable(nfc, members[i].value);
      }
      EncodableMembers(nfc, numbers);
    case Arr(items) =>
      forall i | 0 <= i < |items|
        ensures IsEncodable(nfc, AsNumbers(items[i]))
      {
        assert IsEncodable(nfc, items[i]);
        AsNumbersIsEncodable(nfc, items[i]);
      }
    case _ =>
  }

  lemma SameObjectsPythonEqual(ms: seq<Member>, ns: seq<Member>)
    requires SameValue(Obj(ms), Obj(ns))
    ensures PythonEqual(Obj(ms), Obj(ns))
    decreases ms, 1
  {
    var x, y := MembersAsNumbers(ms), MembersAsNumbers(ns);
    forall i | 0 <= i < |x|
      ensures exists j | 0 <= j < |y| :: x[i].key == y[j].key && SameValue(x[i].value, y[j].value)
    {
      var j :| 0 <= j < |ns| && ms[i].key == ns[j].key && SameValue(ms[i].value, ns[j].value);
      SameIsPythonEqual(ms[i].value, ns[j].value);
      assert x[i].key == y[j].key && SameValue(x[i].value, y[j].value);
    }
    assert SameValue(Obj(x), Obj(y));
  }

  lemma SameArraysPythonEqual(xs: seq<Json>, ys: seq<Json>)
    requires SameValue(Arr(xs), Arr(ys))
    ensures PythonEqual(Arr(xs), Arr(ys))
    decreases xs, 1
  {
    forall i | 0 <= i < |xs|
      ensures SameValue(AsNumbers(xs[i]), AsNumbers(ys[i]))
    {
      SameIsPythonEqual(xs[i], ys[i]);
    }
  }

  lemma {:induction false} SameIsPythonEqual(a: Json, b: Json)
    requires SameValue(a, b)
    ensures PythonEqual(a, b)
    decreases a, 0
  {
    match (a, b)
    case (Obj(ms), Obj(ns)) => SameObjectsPythonEqual(ms, ns);
    case (Arr(xs), Arr(ys)) => SameArraysPythonEqual(xs, ys);
    case _ => SameNormalSameValue(AsNumbers(a), AsNumbers(b));
  }

  /** For values that can be encoded, Python's equality is an equivalence that normal forms decide. */
  lemma PythonEqualIsNormal(nfc: Nfc, a: Json, b: Json)
    requires IsEncodable(nfc, a) && IsEncodable(nfc, b)
    ensures PythonEqual(a, b) <==> Normal(AsNumbers(a)) == Normal(AsNumbers(b))
  {
    AsNumbersIsEncodable(nfc, a);
    AsNumbersIsEncodable(nfc, b);
    if PythonEqual(a, b) {
      SameValuesNormalize(nfc, AsNumbers(a), AsNumbers(b));
    }
    if Normal(AsNumbers(a)) == Normal(AsNumbers(b)) {
      SameNormalSameValue(AsNumbers(a), AsNumbers(b));
    }
  }

  lemma AcceptedIsEncodable(nfc: Nfc, primary: KeyFunction, identity: KeyFunction, items: seq<Json>, i: nat)
    requires IsAccepted(nfc, primary, identity, items) && AreProper(items) && i < |items|
    ensures IsEncodable(nfc, items[i])
  {
    CanonicalIsRendered(nfc, items[i]);
  }

  /** Two items that Python takes for equal though they are different JSON values. */
  ghost predicate Confuses(view: seq<Json>, i: int, j: int) {
    0 <= i < |view| && 0 <= j < |view| && PythonEqual(view[i], view[j]) && !SameValue(view[i], view[j])
  }

  lemma OrderedPermutation(
      nfc: Nfc, primary: KeyFunction, identity: KeyFunction, items: seq<Json>, p: seq<Json>, k: nat)
    requires IsAccepted(nfc, primary, identity, items) && AreProper(items) && multiset(p) == multiset(items)
    requires IsInRequiredOrder(nfc, primary, identity, p) && k < |p|
    requires var view := StableView(nfc, primary, identity, items).value; forall i, j :: !Confuses(view, i, j)
    ensures var view := StableView(nfc, primary, identity, items).value;
      |view| == |p| && SameValue(p[k], view[k])
  {
    var view, own := StableView(nfc, primary, identity, items).value, StableView(nfc, primary, identity, p).value;
    ViewIsPermutationInvariant(nfc, primary, identity, items, p);
    ViewIsSortedPermutation(nfc, primary, identity, items);
    ProperPermutation(items, view);
    var m := MemberOfPermutation(view, p, k);
    AcceptedPermutation(nfc, primary, identity, items, p);
    ProperPermutation(items, p);
    ViewIsSortedPermutation(nfc, primary, identity, p);
    ProperPermutation(p, own);
    AcceptedIsEncodable(nfc, primary, identity, view, k);
    AcceptedIsEncodable(nfc, primary, identity, view, m);
    AcceptedIsEncodable(nfc, primary, identity, own, k);
    SameIsPythonEqual(view[k], own[k]);
    PythonEqualIsNormal(nfc, view[k], own[k]);
    PythonEqualIsNormal(nfc, p[k], own[k]);
    PythonEqualIsNormal(nfc, view[m], view[k]);
    assert !Confuses(view, m, k);
  }

  lemma ProperPermutation(a: seq<Json>, b: seq<Json>)
    requires multiset(a) == multiset(b) && AreProper(a)
    ensures AreProper(b)
  {
    forall i | 0 <= i < |b|
      ensures IsProper(b[i])
    {
      var j := MemberOfPermutation(a, b, i);
    }
  }

  function Swapped(view: seq<Json>, i: nat, j: nat): seq<Json>
    requires i < |view| && j < |view|
  {
    view[i := view[j]][j := view[i]]
  }

  lemma SwapPermutes(view: seq<Json>, i: nat, j: nat)
    requires i < |view| && j < |view|
    ensures multiset(Swapped(view, i, j)) == multiset(view) && |Swapped(view, i, j)| == |view|
    ensures forall k :: 0 <= k < |view| ==>
      Swapped(view, i, j)[k] == view[if k == j then i else if k == i then j else k]
  {
  }

  lemma PythonEqualChain(nfc: Nfc, a: Json, b: Json, c: Json)
    requires IsEncodable(nfc, a) && IsEncodable(nfc, b) && IsEncodable(nfc, c) && PythonEqual(b, c)
    ensures PythonEqual(a, b) ==> PythonEqual(a, c)
    ensures PythonEqual(b, a) ==> PythonEqual(a, c)
  {
    PythonEqualIsNormal(nfc, a, b);
    PythonEqualIsNormal(nfc, b, a);
    PythonEqualIsNormal(nfc, b, c);
    PythonEqualIsNormal(nfc, a, c);
  }

  lemma SwappedPlace(
      nfc: Nfc, primary: KeyFunction, identity: KeyFunction, view: seq<Json>, own: seq<Json>, m: nat, k: nat)
    requires IsAccepted(nfc, primary, identity, view) && AreProper(view)
    requires IsAccepted(nfc, primary, identity, own) && AreProper(own) && AllSame(view, own)
    requires m < |view| && k < |view|
    requires m == k || PythonEqual(view[m], view[k]) || PythonEqual(view[k], view[m])
    ensures PythonEqual(view[m], own[k])
  {
    AcceptedIsEncodable(nfc, primary, identity, view, k);
    AcceptedIsEncodable(nfc, primary, identity, view, m);
    AcceptedIsEncodable(nfc, primary, identity, own, k);
    SameIsPythonEqual(view[k], own[k]);
    PythonEqualChain(nfc, view[m], view[k], own[k]);
  }

  /** The view with two items that Python takes for equal swapped is still in the required order. */
  lemma SwappedIsInRequiredOrder(
      nfc: Nfc, primary: KeyFunction, identity: KeyFunction, items: seq<Json>, view: seq<Json>, i: nat, j: nat)
    requires StableView(nfc, primary, identity, items) == Some(view) && AreProper(items)
    requires i < |view| && j < |view| && PythonEqual(view[i], view[j])
    ensures multiset(Swapped(view, i, j)) == multiset(items)
    ensures IsInRequiredOrder(nfc, primary, identity, Swapped(view, i, j))
  {
    var p := Swapped(view, i, j);
    SwapPermutes(view, i, j);
    ViewIsSortedPermutation(nfc, primary, identity, items);
    ViewIsPermutationInvariant(nfc, primary, identity, items, p);
    ProperPermutation(items, view);
    ProperPermutation(items, p);
    var own := StableView(nfc, primary, identity, p).value;
    ViewIsSortedPermutation(nfc, primary, identity, p);
    ProperPermutation(p, own);
    forall k | 0 <= k < |p|
      ensures PythonEqual(p[k], own[k])
    {
      SwappedPlace(nfc, primary, identity, view, own, if k == j then i else if k == i then j else k, k);
    }
  }

  /** Of all arrangements of the items, only those that read like the view are in the required order. */
  ghost predicate RequiresOneOrder(
      nfc: Nfc, primary: KeyFunction, identity: KeyFunction, items: seq<Json>, view: seq<Json>)
  {
    forall p :: multiset(p) == multiset(items) && IsInRequiredOrder(nfc, primary, identity, p) ==> AllSame(p, view)
  }

  lemma ConfusionAllowsAnother(
      nfc: Nfc, primary: KeyFunction, identity: KeyFunction, items: seq<Json>, view: seq<Json>, i: nat, j: nat)
    requires StableView(nfc, primary, identity, items) == Some(view) && AreProper(items) && Confuses(view, i, j)
    ensures !RequiresOneOrder(nfc, primary, identity, items, view)
  {
    var p := Swapped(view, i, j);
    SwapPermutes(view, i, j);
    SwappedIsInRequiredOrder(nfc, primary, identity, items, view, i, j);
    assert p[j] == view[i] && !SameValue(p[j], view[j]);
  }

  lemma NoConfusionOneOrder(
      nfc: Nfc, primary: KeyFunction, identity: KeyFunction, items: seq<Json>, view: seq<Json>)
    requires StableView(nfc, primary, identity, items) == Some(view) && AreProper(items)
    requires forall i, j :: !Confuses(view, i, j)
    ensures RequiresOneOrder(nfc, primary, identity, items, view)
  {
    ViewIsSortedPermutation(nfc, primary, identity, items);
    forall p | multiset(p) == multiset(items) && IsInRequiredOrder(nfc, primary, identity, p)
      ensures AllSame(p, view)
    {
      assert |p| == |multiset(p)| == |items|;
      forall k | 0 <= k < |p|
        ensures SameValue(p[k], view[k])
      {
        OrderedPermutation(nfc, primary, identity, items, p, k);
      }
    }
  }

  lemma ViewIsInRequiredOrder(
      nfc: Nfc, primary: KeyFunction, identity: KeyFunction, items: seq<Json>, view: seq<Json>)
    requires StableView(nfc, primary, identity, items) == Some(view) && AreProper(items)
    ensures IsInRequiredOrder(nfc, primary, identity, view)
  {
    ViewIsSortedPermutation(nfc, primary, identity, items);
    ViewIsPermutationInvariant(nfc, primary, identity, items, view);
    var own := StableView(nfc, primary, identity, view).value;
    forall k | 0 <= k < |view|
      ensures PythonEqual(view[k], own[k])
    {
      SameIsPythonEqual(view[k], own[k]);
    }
  }

  /**
   * The view is in the required order, and, up to equality of JSON values, no other arrangement of its items
   * is, if and only if Python's equality confuses no two items of the view.
   */
  lemma OneOrderIsRequired(
      nfc: Nfc, primary: KeyFunction, identity: KeyFunction, items: seq<Json>, view: seq<Json>)
    requires StableView(nfc, primary, identity, items) == Some(view) && AreProper(items)
    ensures IsInRequiredOrder(nfc, primary, identity, view)
    ensures RequiresOneOrder(nfc, primary, identity, items, view) <==> forall i, j :: !Confuses(view, i, j)
  {
    ViewIsInRequiredOrder(nfc, primary, identity, items, view);
    if i, j :| Confuses(view, i, j) {
      ConfusionAllowsAnother(nfc, primary, identity, items, view, i, j);
    } else {
      NoConfusionOneOrder(nfc, primary, identity, items, view);
    }
  }

  lemma TwoInOrder(sort: Json -> OrderKey, first: Json, second: Json)
    requires KeyLeq(sort(first), sort(second))
    ensures SortBy(sort, KeyLeq, [first, second]) == [first, second]
  {
    var items := [first, second];
    assert forall i, j :: 0 <= i < j < |items| ==> KeyLeq(sort(items[i]), sort(items[j]));
    SortedIsFixed(sort, KeyLeq, items);
  }

  /** `True` and `1` are the counterexample: with a key that tells them apart both orders are accepted. */
  lemma TrueAndOneAreConfused(nfc: Nfc) returns (key: KeyFunction, items: seq<Json>)
    ensures StableView(nfc, key, key, items) == Some(items)
    ensures Confuses(items, 0, 1) && !RequiresOneOrder(nfc, key, key, items, items)
  {
    key := (v: Json) => Some([Number(if v.Bool? then 1 else 0)]);
    items := [Int(1), Bool(true)];
    var sort := SortKeyFor(nfc, key);
    var first, second := sort(items[0]), sort(items[1]);
    assert first[0] == Number(0) && second[0] == Number(1);
    assert KeyLeq(first, second);
    TwoInOrder(sort, items[0], items[1]);
    ConfusionAllowsAnother(nfc, key, key, items, items, 0, 1);
  }

  /** Where both items have an identity, Python's equality does not see more than it does. */
  ghost predicate RespectsPython(identity: KeyFunction) {
    forall a: Json, b: Json ::
      PythonEqual(a, b) && IsProper(a) && IsProper(b) && identity(a).Some? && identity(b).Some? ==>
        identity(a) == identity(b)
  }

  lemma EqualItemsAreOne(
      nfc: Nfc, primary: KeyFunction, identity: KeyFunction, view: seq<Json>, i: nat, j: nat)
    requires IsAccepted(nfc, primary, identity, view) && AreProper(view) && RespectsPython(identity)
    requires i < |view| && j < |view| && PythonEqual(view[i], view[j])
    ensures i == j
  {
    assert IsOrderable(nfc, primary, identity, view[i]) && IsOrderable(nfc, primary, identity, view[j]);
    assert identity(view[i]) == identity(view[j]);
  }

  /** With such an identity no two places of an accepted array are confused, so one order is required. */
  lemma RespectfulIdentity(
      nfc: Nfc, primary: KeyFunction, identity: KeyFunction, items: seq<Json>, view: seq<Json>)
    requires StableView(nfc, primary, identity, items) == Some(view) && AreProper(items) && RespectsPython(identity)
    ensures RequiresOneOrder(nfc, primary, identity, items, view)
  {
    ViewIsSortedPermutation(nfc, primary, identity, items);
    ProperPermutation(items, view);
    forall i, j
      ensures !Confuses(view, i, j)
    {
      if Confuses(view, i, j) {
        EqualItemsAreOne(nfc, primary, identity, view, i, j);
        SameNormalSameValue(view[i], view[i]);
      }
    }
    NoConfusionOneOrder(nfc, primary, identity, items, view);
  }

  /** The usual identity: one member of the item, required to be a safe integer. */
  function IntegerField(name: Text): KeyFunction {
    (item: Json) =>
      if item.Obj? && exists i :: 0 <= i < |item.members| && item.members[i].key == name then
        match IntegerComponent(FieldOf(item.members, name))
        case None => None
        case Some(component) => Some([component])
      else
        None
  }

  function FieldOf(members: seq<Member>, name: Text): Json
    requires exists i :: 0 <= i < |members| && members[i].key == name
  {
    if members[0].key == name then members[0].value else FieldOf(members[1..], name)
  }

  lemma {:induction false} FieldIsThere(members: seq<Member>, name: Text) returns (i: nat)
    requires exists k :: 0 <= k < |members| && members[k].key == name
    ensures i < |members| && members[i] == Member(name, FieldOf(members, name))
  {
    if members[0].key == name {
      i := 0;
    } else {
      var k :| 0 <= k < |members| && members[k].key == name;
      assert members[1..][k - 1].key == name;
      var j := FieldIsThere(members[1..], name);
      i := j + 1;
    }
  }

  lemma MatchedMember(a: seq<Member>, b: seq<Member>, i: nat) returns (j: nat)
    requires PythonEqual(Obj(a), Obj(b)) && i < |a|
    ensures j < |b| && a[i].key == b[j].key && PythonEqual(a[i].value, b[j].value)
  {
    var x, y := MembersAsNumbers(a), MembersAsNumbers(b);
    assert SameValue(Obj(x), Obj(y));
    j :| 0 <= j < |y| && x[i].key == y[j].key && SameValue(x[i].value, y[j].value);
  }

  lemma OneMemberPerKey(members: seq<Member>, j: nat, k: nat)
    requires IsProper(Obj(members)) && j < |members| && k < |members| && members[j].key == members[k].key
    ensures j == k
  {
    assert Keys(members)[j] == Keys(members)[k];
  }

  lemma SameField(a: seq<Member>, b: seq<Member>, name: Text)
    requires PythonEqual(Obj(a), Obj(b)) && IsProper(Obj(b))
    requires exists i :: 0 <= i < |a| && a[i].key == name
    requires exists i :: 0 <= i < |b| && b[i].key == name
    ensures PythonEqual(FieldOf(a, name), FieldOf(b, name))
  {
    var i := FieldIsThere(a, name);
    var k := FieldIsThere(b, name);
    var j := MatchedMember(a, b, i);
    OneMemberPerKey(b, j, k);
  }

  lemma IntegerFieldRespectsPython(name: Text)
    ensures RespectsPython(IntegerField(name))
  {
    var identity := IntegerField(name);
    forall a: Json, b: Json | PythonEqual(a, b) && IsProper(a) && IsProper(b)
                              && identity(a).Some? && identity(b).Some?
      ensures identity(a) == identity(b)
    {
      SameField(a.members, b.members, name);
    }
  }

  function StringField(nfc: Nfc, name: Text): KeyFunction {
    (item: Json) =>
      if item.Obj? && exists i :: 0 <= i < |item.members| && item.members[i].key == name then
        match StringComponent(nfc, FieldOf(item.members, name))
        case None => None
        case Some(component) => Some([component])
      else
        None
  }

  lemma StringFieldRespectsPython(nfc: Nfc, name: Text)
    ensures RespectsPython(StringField(nfc, name))
  {
    var identity := StringField(nfc, name);
    forall a: Json, b: Json | PythonEqual(a, b) && IsProper(a) && IsProper(b)
                              && identity(a).Some? && identity(b).Some?
      ensures identity(a) == identity(b)
    {
      SameField(a.members, b.members, name);
    }
  }

  /** The validator requires an order of items keyed by an integer member; for such keys there is only one. */
  lemma IntegerKeysRequireOneOrder(nfc: Nfc, name: Text, items: seq<Json>, view: seq<Json>)
    requires StableView(nfc, IntegerField(name), IntegerField(name), items) == Some(view) && AreProper(items)
    ensures RequiresOneOrder(nfc, IntegerField(name), IntegerField(name), items, view)
  {
    IntegerFieldRespectsPython(name);
    RespectfulIdentity(nfc, IntegerField(name), IntegerField(name), items, view);
  }

  /** With one component as key and identity, the components of the view are in strict order. */
  lemma ViewByComponent(
      nfc: Nfc, key: KeyFunction, items: seq<Json>, view: seq<Json>, i: nat, j: nat, a: Component, b: Component)
    requires StableView(nfc, key, key, items) == Some(view) && i < j < |view|
    requires key(view[i]) == Some([a]) && key(view[j]) == Some([b])
    ensures a != b && ComponentLeq(a, b)
  {
    ViewIsSortedPermutation(nfc, key, key, items);
    assert IsOrderable(nfc, key, key, view[i]) && IsOrderable(nfc, key, key, view[j]);
    var x, y := SortKey(nfc, key, view[i]), SortKey(nfc, key, view[j]);
    assert x[0] == a && y[0] == b && |x| == |y| == 2;
    assert key(view[i]) != key(view[j]) && KeyLeq(x, y);
  }

  /** The items of a view keyed by an integer member come by ascending integers. */
  lemma IntegerViewAscends(nfc: Nfc, name: Text, items: seq<Json>, view: seq<Json>, i: nat, j: nat)
    requires StableView(nfc, IntegerField(name), IntegerField(name), items) == Some(view) && i < j < |view|
    ensures IntegerField(name)(view[i]).Some? && IntegerField(name)(view[j]).Some?
    ensures FieldOf(view[i].members, name).number < FieldOf(view[j].members, name).number
  {
    var key := IntegerField(name);
    ViewIsSortedPermutation(nfc, key, key, items);
    assert IsOrderable(nfc, key, key, view[i]) && IsOrderable(nfc, key, key, view[j]);
    var a, b := key(view[i]).value[0], key(view[j]).value[0];
    ViewByComponent(nfc, key, items, view, i, j, a, b);
    ComponentsByTag(a, b);
  }

  /** The items of a view keyed by a string member come by ascending UTF-16 code units. */
  lemma StringViewAscends(nfc: Nfc, name: Text, items: seq<Json>, view: seq<Json>, i: nat, j: nat)
    requires StableView(nfc, StringField(nfc, name), StringField(nfc, name), items) == Some(view)
    requires i < j < |view|
    ensures StringField(nfc, name)(view[i]).Some? && StringField(nfc, name)(view[j]).Some?
    ensures var a, b := FieldOf(view[i].members, name).text, FieldOf(view[j].members, name).text;
      a != b && InDictionaryOrder(UnitLeq, Units(a), Units(b))
  {
    var key := StringField(nfc, name);
    ViewIsSortedPermutation(nfc, key, key, items);
    assert IsOrderable(nfc, key, key, view[i]) && IsOrderable(nfc, key, key, view[j]);
    var a, b := key(view[i]).value[0], key(view[j]).value[0];
    ViewByComponent(nfc, key, items, view, i, j, a, b);
    SortKeyOrder(FieldOf(view[i].members, name).text, FieldOf(view[j].members, name).text);
  }
}
