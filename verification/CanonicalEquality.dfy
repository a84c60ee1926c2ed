/** Equality of canonical bytes is equality of JSON values, and the bytes read back as the value. */
module CanonicalEquality {
  import opened Wrappers
  import opened Ordering
  import opened UnicodeText
  import opened CanonicalJson
  import opened CanonicalForm
  import opened JsonParser
  import opened CanonicalRoundTrip

  /** A dictionary whose every key and value can be encoded. */
  ghost predicate IsEncodable(nfc: Nfc, v: Json) {
    IsProper(v) && IsAcceptable(nfc, v)
  }

  ghost predicate AreEncodable(nfc: Nfc, members: seq<Member>) {
    && (forall i, j :: 0 <= i < j < |members| ==> members[i].key != members[j].key)
    && (forall i :: 0 <= i < |members| ==>
         IsValidText(nfc, members[i].key) && IsEncodable(nfc, members[i].value))
  }

  lemma EncodableMembers(nfc: Nfc, members: seq<Member>)
    ensures IsEncodable(nfc, Obj(members)) <==> AreEncodable(nfc, members)
  {
    assert forall i :: 0 <= i < |members| ==> Keys(members)[i] == members[i].key;
  }

  lemma KeysSortDistinctly(nfc: Nfc, members: seq<Member>)
    requires AreEncodable(nfc, members)
    ensures HasDistinctKeys(MemberKey, members)
  {
    forall i, j | 0 <= i < j < |members|
      ensures MemberKey(members[i]) != MemberKey(members[j])
    {
      if Utf16(members[i].key) == Utf16(members[j].key) {
        Utf16IsInjective(members[i].key, members[j].key);
      }
    }
  }

  // ----- the normal form -----

  lemma {:induction false} NormalIsEncodable(nfc: Nfc, v: Json)
    requires IsEncodable(nfc, v)
    ensures IsEncodable(nfc, Normal(v))
    decreases v
  {
    match v
    case Obj(members) =>
      EncodableMembers(nfc, members);
      var normal := NormalMembers(members);
      forall i | 0 <= i < |members|
        ensures IsEncodable(nfc, normal[i].value)
      {
        NormalIsEncodable(nfc, members[i].value);
      }
      SortedIsEncodable(nfc, normal);
      EncodableMembers(nfc, SortBy(MemberKey, BytesLeq, normal));
    case Arr(items) =>
      forall i | 0 <= i < |items|
        ensures IsEncodable(nfc, Normal(items[i]))
      {
        assert IsEncodable(nfc, items[i]);
        NormalIsEncodable(nfc, items[i]);
      }
    case _ =>
  }

  lemma SortedIsEncodable(nfc: Nfc, members: seq<Member>)
    requires AreEncodable(nfc, members)
    ensures AreEncodable(nfc, SortBy(MemberKey, BytesLeq, members))
  {
    var sorted := SortBy(MemberKey, BytesLeq, members);
    SortPermutes(MemberKey, BytesLeq, members);
    forall i | 0 <= i < |sorted|
      ensures sorted[i] in members
    {
      assert sorted[i] in multiset(sorted);
    }
    SortedDistinctly(members);
  }

  lemma SortedDistinctly(members: seq<Member>)
    requires forall i, j :: 0 <= i < j < |members| ==> members[i].key != members[j].key
    ensures var sorted := SortBy(MemberKey, BytesLeq, members);
      forall i, j :: 0 <= i < j < |sorted| ==> sorted[i].key != sorted[j].key
  {
    var sorted := SortBy(MemberKey, BytesLeq, members);
    SortPermutes(MemberKey, BytesLeq, members);
    MappedPermutation((m: Member) => m.key, members, sorted);
    var before, after := Mapped((m: Member) => m.key, members), Mapped((m: Member) => m.key, sorted);
    forall i, j | 0 <= i < j < |after|
      ensures after[i] != after[j]
    {
      DistinctCounts(before, after[i]);
      if after[i] == after[j] {
        TwiceCounts(after, i, j);
      }
    }
    assert forall i :: 0 <= i < |sorted| ==> after[i] == sorted[i].key;
  }

  lemma TwiceCounts<T>(s: seq<T>, i: nat, j: nat)
    requires i < j < |s| && s[i] == s[j]
    ensures multiset(s)[s[i]] >= 2
  {
    assert s == s[..j] + s[j..] && s[i] in s[..j] && s[j] in s[j..];
  }

  /** Every value of the sequence is its own normal form. */
  ghost predicate AreNormal(members: seq<Member>) {
    forall i :: 0 <= i < |members| ==> Normal(members[i].value) == members[i].value
  }

  lemma SortedNormalTwice(members: seq<Member>)
    requires AreNormal(members)
    ensures Normal(Obj(SortBy(MemberKey, BytesLeq, members))) == Obj(SortBy(MemberKey, BytesLeq, members))
  {
    var sorted := SortBy(MemberKey, BytesLeq, members);
    SortPermutes(MemberKey, BytesLeq, members);
    forall i | 0 <= i < |sorted|
      ensures NormalMembers(sorted)[i] == sorted[i]
    {
      assert sorted[i] in multiset(sorted);
      assert sorted[i] in members;
    }
    assert NormalMembers(sorted) == sorted;
    BytesOrder();
    SortSorts(MemberKey, BytesLeq, members);
    SortedIsFixed(MemberKey, BytesLeq, sorted);
  }

  lemma {:induction false} NormalTwice(v: Json)
    ensures Normal(Normal(v)) == Normal(v)
    decreases v
  {
    match v
    case Obj(members) =>
      var normal := NormalMembers(members);
      forall i | 0 <= i < |normal|
        ensures Normal(normal[i].value) == normal[i].value
      {
        NormalTwice(members[i].value);
      }
      SortedNormalTwice(normal);
    case Arr(items) =>
      forall i | 0 <= i < |items|
        ensures Normal(Normal(items[i])) == Normal(items[i])
      {
        NormalTwice(items[i]);
      }
      assert NormalItems(NormalItems(items)) == NormalItems(items);
    case _ =>
  }

  // ----- equality -----

  lemma SameMembersSortAlike(nfc: Nfc, ms: seq<Member>, ns: seq<Member>)
    requires AreEncodable(nfc, ms) && |ms| == |ns|
    requires forall i :: 0 <= i < |ms| ==> ms[i] in ns
    ensures SortBy(MemberKey, BytesLeq, ms) == SortBy(MemberKey, BytesLeq, ns)
  {
    DistinctInclusion(ms, ns);
    KeysSortDistinctly(nfc, ms);
    BytesOrder();
    SortOfPermutation(MemberKey, BytesLeq, ms, ns);
  }

  lemma SortedAlikeSameMembers(ms: seq<Member>, ns: seq<Member>, i: nat) returns (j: nat)
    requires SortBy(MemberKey, BytesLeq, ms) == SortBy(MemberKey, BytesLeq, ns) && i < |ms|
    ensures |ms| == |ns| && j < |ns| && ns[j] == ms[i]
  {
    SortPermutes(MemberKey, BytesLeq, ms);
    SortPermutes(MemberKey, BytesLeq, ns);
    assert ms[i] in multiset(ms);
    j :| 0 <= j < |ns| && ns[j] == ms[i];
  }

  lemma SameObjectsNormalize(nfc: Nfc, ms: seq<Member>, ns: seq<Member>)
    requires IsEncodable(nfc, Obj(ms)) && IsEncodable(nfc, Obj(ns)) && SameValue(Obj(ms), Obj(ns))
    ensures Normal(Obj(ms)) == Normal(Obj(ns))
    decreases ms, 1
  {
    EncodableMembers(nfc, ms);
    EncodableMembers(nfc, ns);
    var nms, nns := NormalMembers(ms), NormalMembers(ns);
    forall i | 0 <= i < |nms|
      ensures nms[i] in nns
      ensures IsEncodable(nfc, nms[i].value)
    {
      var j :| 0 <= j < |ns| && ms[i].key == ns[j].key && SameValue(ms[i].value, ns[j].value);
      SameValuesNormalize(nfc, ms[i].value, ns[j].value);
      assert nns[j] == nms[i];
      NormalIsEncodable(nfc, ms[i].value);
    }
    SameMembersSortAlike(nfc, nms, nns);
  }

  lemma {:induction false} SameValuesNormalize(nfc: Nfc, a: Json, b: Json)
    requires IsEncodable(nfc, a) && IsEncodable(nfc, b) && SameValue(a, b)
    ensures Normal(a) == Normal(b)
    decreases a, 0
  {
    match (a, b)
    case (Obj(ms), Obj(ns)) => SameObjectsNormalize(nfc, ms, ns);
    case (Arr(xs), Arr(ys)) =>
      forall i | 0 <= i < |xs|
        ensures Normal(xs[i]) == Normal(ys[i])
      {
        assert IsEncodable(nfc, xs[i]) && IsEncodable(nfc, ys[i]);
        SameValuesNormalize(nfc, xs[i], ys[i]);
      }
      assert NormalItems(xs) == NormalItems(ys);
    case _ =>
  }

  lemma MatchingMember(ms: seq<Member>, ns: seq<Member>, i: nat) returns (j: nat)
    requires Normal(Obj(ms)) == Normal(Obj(ns)) && i < |ms|
    ensures j < |ns| && ms[i].key == ns[j].key && Normal(ms[i].value) == Normal(ns[j].value)
  {
    var nms, nns := NormalMembers(ms), NormalMembers(ns);
    assert Normal(Obj(ms)).members == SortBy(MemberKey, BytesLeq, nms);
    assert Normal(Obj(ns)).members == SortBy(MemberKey, BytesLeq, nns);
    j := SortedAlikeSameMembers(nms, nns, i);
  }

  lemma SameNormalLength(ms: seq<Member>, ns: seq<Member>)
    requires Normal(Obj(ms)) == Normal(Obj(ns))
    ensures |ms| == |ns|
  {
    SortPermutes(MemberKey, BytesLeq, NormalMembers(ms));
    SortPermutes(MemberKey, BytesLeq, NormalMembers(ns));
  }

  lemma SameNormalObjects(ms: seq<Member>, ns: seq<Member>)
    requires Normal(Obj(ms)) == Normal(Obj(ns))
    ensures SameValue(Obj(ms), Obj(ns))
    decreases ms, 1
  {
    SameNormalLength(ms, ns);
    forall i | 0 <= i < |ms|
      ensures exists j | 0 <= j < |ns| :: ms[i].key == ns[j].key && SameValue(ms[i].value, ns[j].value)
    {
      var j := MatchingMember(ms, ns, i);
      SameNormalSameValue(ms[i].value, ns[j].value);
    }
  }

  lemma {:induction false} SameNormalSameValue(a: Json, b: Json)
    requires Normal(a) == Normal(b)
    ensures SameValue(a, b)
    decreases a, 0
  {
    match (a, b)
    case (Obj(ms), Obj(ns)) => SameNormalObjects(ms, ns);
    case (Arr(xs), Arr(ys)) =>
      assert NormalItems(xs) == NormalItems(ys);
      forall i | 0 <= i < |xs|
        ensures SameValue(xs[i], ys[i])
      {
        assert NormalItems(xs)[i] == NormalItems(ys)[i];
        SameNormalSameValue(xs[i], ys[i]);
      }
    case _ =>
  }

  /** Compact text determines the value, members in their order. */
  lemma RenderIsInjective(nfc: Nfc, a: Json, b: Json)
    requires IsEncodable(nfc, a) && IsEncodable(nfc, b) && Render(a) == Render(b)
    ensures a == b
  {
    ValueParses(nfc, a, []);
    ValueParses(nfc, b, []);
    assert Render(a) + [] == Render(a);
  }

  // ----- texts -----

  lemma {:induction false} EscapedHasNoSurrogates(t: Text)
    requires HasNoSurrogates(t)
    ensures HasNoSurrogates(EscapeAll(t))
  {
    if t != [] {
      EscapedHasNoSurrogates(t[1..]);
    }
  }

  lemma {:induction false} MembersHaveNoSurrogates(nfc: Nfc, members: seq<Member>)
    requires forall i :: 0 <= i < |members| ==>
      IsValidText(nfc, members[i].key) && IsAcceptable(nfc, members[i].value)
    ensures HasNoSurrogates(RenderMembers(members))
    decreases members, 1
  {
    if members != [] {
      EscapedHasNoSurrogates(members[0].key);
      RenderHasNoSurrogates(nfc, members[0].value);
      MembersHaveNoSurrogates(nfc, members[1..]);
    }
  }

  lemma {:induction false} ItemsHaveNoSurrogates(nfc: Nfc, items: seq<Json>)
    requires forall i :: 0 <= i < |items| ==> IsAcceptable(nfc, items[i])
    ensures HasNoSurrogates(RenderItems(items))
    decreases items, 1
  {
    if items != [] {
      RenderHasNoSurrogates(nfc, items[0]);
      ItemsHaveNoSurrogates(nfc, items[1..]);
    }
  }

  lemma {:induction false} RenderHasNoSurrogates(nfc: Nfc, v: Json)
    requires IsAcceptable(nfc, v)
    ensures HasNoSurrogates(Render(v))
    decreases v, 0
  {
    match v
    case Obj(members) => MembersHaveNoSurrogates(nfc, members);
    case Arr(items) => ItemsHaveNoSurrogates(nfc, items);
    case Int(n) => DumpNatIsDecimal(if n < 0 then -n else n);
    case Str(text) => EscapedHasNoSurrogates(text);
    case _ =>
  }

  // ----- the two main results -----

  lemma CanonicalBytesReadBack(nfc: Nfc, v: Json)
    requires IsEncodable(nfc, v)
    ensures Canonical(nfc, v).Some? && DecodeUtf8(Canonical(nfc, v).value) == Some(Render(Normal(v)))
  {
    CanonicalIsRendered(nfc, v);
    NormalIsEncodable(nfc, v);
    RenderHasNoSurrogates(nfc, Normal(v));
    Utf8IsExact(Utf8(Render(Normal(v))), Render(Normal(v)));
  }

  /**
   * Two encoded values have equal bytes exactly when they are the same JSON value: the order in which members
   * were inserted never matters, and nothing else is confused, `true` with `1` included.
   */
  lemma CanonicalDecidesEquality(nfc: Nfc, a: Json, b: Json)
    requires IsProper(a) && IsProper(b) && Canonical(nfc, a).Some? && Canonical(nfc, b).Some?
    ensures Canonical(nfc, a) == Canonical(nfc, b) <==> SameValue(a, b)
  {
    CanonicalIsRendered(nfc, a);
    CanonicalIsRendered(nfc, b);
    if Canonical(nfc, a) == Canonical(nfc, b) {
      CanonicalBytesReadBack(nfc, a);
      CanonicalBytesReadBack(nfc, b);
      NormalIsEncodable(nfc, a);
      NormalIsEncodable(nfc, b);
      RenderIsInjective(nfc, Normal(a), Normal(b));
      SameNormalSameValue(a, b);
    }
    if SameValue(a, b) {
      SameValuesNormalize(nfc, a, b);
    }
  }

  /**
   * What was encoded reads back, under the strict parser, as the same value with sorted members, and encodes
   * to the same bytes again.
   */
  lemma CanonicalRoundTrips(nfc: Nfc, v: Json)
    requires IsProper(v) && Canonical(nfc, v).Some?
    ensures var bytes := Canonical(nfc, v).value;
      && DecodeUtf8(bytes).Some?
      && ParseStrict(nfc, DecodeUtf8(bytes).value) == Some(Normal(v))
      && SameValue(Normal(v), v)
      && Canonical(nfc, Normal(v)) == Some(bytes)
  {
    CanonicalIsRendered(nfc, v);
    CanonicalBytesReadBack(nfc, v);
    var w := Normal(v);
    NormalIsEncodable(nfc, v);
    ValueParses(nfc, w, []);
    RenderStarts(w);
    assert Render(w) + [] == Render(w) && SkipSpace(Render(w)) == Render(w);
    NormalTwice(v);
    SameNormalSameValue(w, v);
    CanonicalIsRendered(nfc, w);
  }
}
