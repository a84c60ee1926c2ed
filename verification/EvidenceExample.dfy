/** A small accepted start/end/post sequence: the laws on accepted sequences speak of something. */
module EvidenceExample {
  import opened Wrappers
  import opened Ordering
  import opened UtcTimestamp
  import opened FindingLedger
  import opened EvidenceTimeline

  // ----- four moments -----

  /** A timestamp and the instant it names. */
  datatype Moment = Moment(text: string, instant: int)

  ghost predicate IsNamed(m: Moment) {
    IsTimestamp(m.text) && InstantOf(m.text) == m.instant
  }

  /** When the evidence was taken, when it was attested, when the window ended, and when the merge was. */
  datatype Times = Times(taken: Moment, attested: Moment, closed: Moment, merged: Moment, until: Moment)

  ghost predicate AreOrdered(t: Times) {
    && IsNamed(t.taken) && IsNamed(t.attested) && IsNamed(t.closed) && IsNamed(t.merged) && IsNamed(t.until)
    && t.taken.instant < t.attested.instant
    && t.attested.instant + WINDOW_SECONDS <= t.closed.instant
    && t.closed.instant < t.merged.instant < t.until.instant
  }

  lemma NotLater(m: Moment, n: Moment)
    requires IsNamed(m) && IsNamed(n) && m.instant <= n.instant
    ensures StringLeq(m.text, n.text)
  {
    OrdersAgree(m.text, n.text);
  }

  lemma PrintedMoment(d: DateTime) returns (m: Moment)
    requires d.IsReal()
    ensures IsNamed(m) && m.instant == d.Instant() && m.text == Format(d)
  {
    FieldsOfPrint(d);
    m := Moment(Format(d), d.Instant());
  }

  lemma ExpiryFields()
    ensures IsTimestamp(RESIDUAL_VALID_UNTIL) && FieldsOf(RESIDUAL_VALID_UNTIL) == DateTime(2026, 11, 14, 0, 0, 0)
  {
    var s: string := RESIDUAL_VALID_UNTIL;
    assert HasShape(s);
    assert Two(s, 0) == 20 && Two(s, 2) == 26 && Two(s, 5) == 11 && Two(s, 8) == 14;
    assert Two(s, 11) == 0 && Two(s, 14) == 0 && Two(s, 17) == 0;
  }

  lemma ExpiryMoment() returns (hour: DateTime, expiry: DateTime)
    ensures hour.IsReal() && hour.minute == 0 && expiry.IsReal()
    ensures hour.year == expiry.year && hour.month < expiry.month
    ensures IsNamed(Moment(RESIDUAL_VALID_UNTIL, expiry.Instant()))
  {
    ExpiryFields();
    hour, expiry := DateTime(2026, 8, 30, 0, 0, 0), FieldsOf(RESIDUAL_VALID_UNTIL);
  }

  lemma SomeTimes() returns (t: Times)
    ensures AreOrdered(t) && t.until.text == RESIDUAL_VALID_UNTIL
  {
    var hour, expiry := ExpiryMoment();
    t := TimesBefore(hour, Moment(RESIDUAL_VALID_UNTIL, expiry.Instant()), expiry);
  }

  lemma TimesBefore(hour: DateTime, until: Moment, expiry: DateTime) returns (t: Times)
    requires hour.IsReal() && hour.minute == 0 && expiry.IsReal()
    requires hour.year == expiry.year && hour.month < expiry.month
    requires IsNamed(until) && until.instant == expiry.Instant()
    ensures AreOrdered(t) && t.until == until
  {
    var taken := PrintedMoment(hour);
    var attested := PrintedMoment(hour.(minute := 1));
    var closed := PrintedMoment(hour.(minute := 11));
    var last := hour.(minute := 12);
    var merged := PrintedMoment(last);
    FieldOrderIsInstantOrder(expiry, last);
    t := Times(taken, attested, closed, merged, until);
  }

  // ----- a ledger -----

  function Accepted(id: string, until: string, time: string, refs: seq<ReportRef>): Finding {
    Finding(id, 1, AcceptedResidual, Some(until), time, refs)
  }

  function Findings(ids: seq<string>, until: string, time: string, refs: seq<ReportRef>): seq<Finding> {
    seq(|ids|, i requires 0 <= i < |ids| => Accepted(ids[i], until, time, refs))
  }

  /** Rules that ask for some residuals which a ledger can list. */
  ghost predicate AreRules(rules: Rules) {
    && (forall id :: id in rules.expected ==> IsFindingId(id, 1) && id !in rules.excluded)
    && IsSortedSet(rules.expected)
  }

  lemma LatestOfEqual(reviews: seq<Review>, time: string)
    requires reviews != [] && IsTimestamp(time) && forall i :: 0 <= i < |reviews| ==> reviews[i].completed == time
    ensures AreReviewed(reviews) && LatestCompletion(reviews) == InstantOf(time)
  {
    var i :| 0 <= i < |reviews| && InstantOf(reviews[i].completed) == LatestCompletion(reviews);
  }

  lemma {:induction false} AllAccepted(ids: seq<string>, until: string, time: string, refs: seq<ReportRef>)
    ensures AcceptedIds(Findings(ids, until, time, refs)) == ids
  {
    if ids != [] {
      var init := ids[..|ids| - 1];
      var findings := Findings(ids, until, time, refs);
      assert findings[..|findings| - 1] == Findings(init, until, time, refs);
      AllAccepted(init, until, time, refs);
    }
  }

  lemma AllAreFixed(ids: seq<string>, until: string, time: string, refs: seq<ReportRef>)
    ensures var findings := Findings(ids, until, time, refs);
      AllFixed(findings, ids) && Mapped(IdOf, findings) == ids
  {
    var findings := Findings(ids, until, time, refs);
    forall id | id in ids
      ensures exists i :: 0 <= i < |findings| && findings[i].id == id
                          && findings[i].status in {AcceptedResidual, Resolved}
    {
      var i :| 0 <= i < |ids| && ids[i] == id;
      assert findings[i].id == id;
    }
    assert Mapped(IdOf, findings) == ids;
  }

  lemma AllAreDisposed(rules: Rules, time: Moment, cutoff: Moment, until: Moment, refs: seq<ReportRef>)
    requires AreRules(rules) && rules.validUntil == until.text
    requires IsNamed(time) && IsNamed(cutoff) && IsNamed(until)
    requires time.instant <= cutoff.instant < until.instant
    ensures AllDisposed(
      Findings(rules.expected, until.text, time.text, refs), rules, time.instant, cutoff.text, refs)
  {
    var findings := Findings(rules.expected, until.text, time.text, refs);
    forall i | 0 <= i < |findings|
      ensures IsDisposed(findings[i], rules, time.instant, cutoff.text, refs)
    {
      assert rules.expected[i] in rules.expected;
    }
  }

  lemma LedgerIsAccepted(
      rules: Rules, reviews: seq<Review>, attested: Option<AttestedIds>, time: Moment, cutoff: Moment, until: Moment)
    requires AreRules(rules) && rules.validUntil == until.text
    requires IsNamed(time) && IsNamed(cutoff) && IsNamed(until)
    requires time.instant <= cutoff.instant < until.instant
    requires reviews != [] && forall i :: 0 <= i < |reviews| ==> reviews[i].completed == time.text
    requires attested.Some? ==> attested.value == AttestedIds(rules.expected, rules.expected)
    ensures AreReviewed(reviews)
    ensures IsAcceptedLedger(
      Findings(rules.expected, until.text, time.text, Mapped(ReferenceTo, reviews)),
      reviews, cutoff.text, rules, attested)
  {
    var refs := Mapped(ReferenceTo, reviews);
    LatestOfEqual(reviews, time.text);
    AllAreDisposed(rules, time, cutoff, until, refs);
    AllAreFixed(rules.expected, until.text, time.text, refs);
    AllAccepted(rules.expected, until.text, time.text, refs);
  }

  lemma {:induction false} CommonPrefix(p: string, a: string, b: string)
    ensures StringLeq(p + a, p + b) == StringLeq(a, b)
  {
    if p == [] {
      assert p + a == a && p + b == b;
    } else {
      CommonPrefix(p[1..], a, b);
      assert (p + a)[1..] == p[1..] + a && (p + b)[1..] == p[1..] + b;
    }
  }

  lemma IdsInOrder(p: string, c: char, d: char)
    requires c < d
    ensures StringLeq(p + [c], p + [d]) && p + [c] != p + [d]
  {
    CommonPrefix(p, [c], [d]);
    assert (p + [c])[|p|] == c && (p + [d])[|p|] == d;
  }

  lemma SortedThree(p: string, c: char, d: char, e: char)
    requires c < d < e
    ensures IsSortedSet([p + [c], p + [d], p + [e]])
  {
    IdsInOrder(p, c, d);
    IdsInOrder(p, d, e);
    IdsInOrder(p, c, e);
  }

  lemma CommonIdsAreSorted()
    ensures IsSortedSet(COMMON_RESIDUALS)
  {
    var p: string := "GVN-P1-00";
    SortedThree(p, '1', '2', '3');
    assert COMMON_RESIDUALS[0] == p + ['1'];
    assert COMMON_RESIDUALS[1] == p + ['2'];
    assert COMMON_RESIDUALS[2] == p + ['3'];
    assert COMMON_RESIDUALS == [p + ['1'], p + ['2'], p + ['3']];
  }

  lemma CommonRules() returns (rules: Rules)
    ensures rules == RulesFor(Ordinary)
    ensures rules.expected != [] && AreRules(rules) && rules.validUntil == RESIDUAL_VALID_UNTIL
  {
    rules := RulesFor(Ordinary);
    CommonIdsAreSorted();
    forall i | 0 <= i < |COMMON_RESIDUALS|
      ensures IsFindingId(COMMON_RESIDUALS[i], 1) && COMMON_RESIDUALS[i] != ONE_TIME_RESIDUAL
    {
      assert COMMON_RESIDUALS[i][9] != ONE_TIME_RESIDUAL[9];
    }
  }

  // ----- the packages -----

  function ReviewsAt(time: string): seq<Review> {
    [Review("r1", "a", time, time), Review("r2", "b", time, time)]
  }

  function FrozenWith(t: Times, rules: Rules): Frozen {
    var reviews := ReviewsAt(t.taken.text);
    Frozen(
      t.taken.text, reviews, [], [],
      Findings(rules.expected, t.until.text, t.taken.text, Mapped(ReferenceTo, reviews)), "")
  }

  function BundlesBefore(t: Times, rules: Rules): Bundles {
    Bundles(Pull("", t.taken.text, 0), Metadata("", t.taken.text), "", [], FrozenWith(t, rules))
  }

  function AttestedComment(t: Times): Comment {
    Comment(7, "owner", 1, "text", t.attested.text, t.attested.text)
  }

  function PublishedAt(t: Times, rules: Rules, merge: Option<Merge>, cutoff: string): Published {
    var before, comment := BundlesBefore(t, rules), AttestedComment(t);
    Published(
      Attestation("owner", 1, AttestedIds(rules.expected, rules.expected), "text"), DeltaOf(before, comment),
      PublishedBundles(before, comment), comment, merge, cutoff)
  }

  function PackageAt(t: Times, rules: Rules, phase: Phase, merge: Option<Merge>, cutoff: string): Package {
    Package(phase, Root(BundlesBefore(t, rules), t.taken.text), Some(PublishedAt(t, rules, merge, cutoff)))
  }

  lemma FrozenHolds(t: Times, rules: Rules, cutoff: Moment)
    requires AreOrdered(t) && IsNamed(cutoff) && t.taken.instant <= cutoff.instant
    ensures HasSoundFrozenTimes(FrozenWith(t, rules), cutoff.text)
  {
    NotLater(t.taken, t.taken);
    NotLater(t.taken, cutoff);
    var reviews := ReviewsAt(t.taken.text);
    assert IsSpanWithin(SpanOf(reviews[0]), t.taken.text, cutoff.text);
    assert IsSpanWithin(SpanOf(reviews[1]), t.taken.text, cutoff.text);
  }

  lemma FrozenLedgerHolds(t: Times, rules: Rules, attested: Option<AttestedIds>, cutoff: Moment)
    requires AreOrdered(t) && AreRules(rules) && rules.validUntil == t.until.text
    requires IsNamed(cutoff) && t.taken.instant <= cutoff.instant < t.until.instant
    requires attested.Some? ==> attested.value == AttestedIds(rules.expected, rules.expected)
    ensures var f := FrozenWith(t, rules);
      AreReviewed(f.reviews) && IsAcceptedLedger(f.findings, f.reviews, cutoff.text, rules, attested)
  {
    var reviews := ReviewsAt(t.taken.text);
    LedgerIsAccepted(rules, reviews, attested, t.taken, cutoff, t.until);
  }

  lemma RootHolds(t: Times, rules: Rules)
    requires AreOrdered(t) && AreRules(rules) && rules.validUntil == t.until.text
    ensures AreSoundBundles(BundlesBefore(t, rules), t.taken.text, rules, None)
  {
    FrozenHolds(t, rules, t.taken);
    FrozenLedgerHolds(t, rules, None, t.taken);
  }

  lemma PublicationHolds(t: Times, rules: Rules, merge: Option<Merge>, cutoff: Moment)
    requires AreOrdered(t) && IsNamed(cutoff) && t.attested.instant <= cutoff.instant
    ensures var p := PublishedAt(t, rules, merge, cutoff.text);
      IsPublication(p.delta, BundlesBefore(t, rules), p, t.taken.text)
  {
    var p := PublishedAt(t, rules, merge, cutoff.text);
    PublicationIsDetermined(p.delta, BundlesBefore(t, rules), p, t.taken.text);
  }

  lemma TimesHold(t: Times, rules: Rules, cutoff: Moment)
    requires AreOrdered(t) && IsNamed(cutoff) && t.attested.instant <= cutoff.instant
    ensures HasSoundTimes(PublishedBundles(BundlesBefore(t, rules), AttestedComment(t)), cutoff.text)
  {
    FrozenHolds(t, rules, cutoff);
    NotLater(t.attested, t.attested);
    NotLater(t.attested, cutoff);
    assert IsSoundComment(AttestedComment(t), cutoff.text);
  }

  lemma PublishedHolds(t: Times, rules: Rules, phase: Phase, merge: Option<Merge>, cutoff: Moment)
    requires AreOrdered(t) && AreRules(rules) && rules.validUntil == t.until.text
    requires IsNamed(cutoff) && t.attested.instant <= cutoff.instant < t.until.instant
    requires (merge.Some? ==> HasSoundMerge(merge.value, cutoff.text)) && (phase == PostMerge <==> merge.Some?)
    ensures IsSoundPublished(
      phase, rules, Root(BundlesBefore(t, rules), t.taken.text), PublishedAt(t, rules, merge, cutoff.text))
  {
    TimesHold(t, rules, cutoff);
    FrozenLedgerHolds(t, rules, Some(AttestedIds(rules.expected, rules.expected)), cutoff);
    PublicationHolds(t, rules, merge, cutoff);
  }

  lemma PackageHolds(t: Times, rules: Rules, phase: Phase, merge: Option<Merge>, cutoff: Moment)
    requires AreOrdered(t) && AreRules(rules) && rules.validUntil == t.until.text
    requires IsNamed(cutoff) && t.attested.instant <= cutoff.instant < t.until.instant
    requires (merge.Some? ==> HasSoundMerge(merge.value, cutoff.text)) && (phase == PostMerge <==> merge.Some?)
    requires phase != PreAttestation
    ensures SoundIn(rules)(PackageAt(t, rules, phase, merge, cutoff.text))
  {
    RootHolds(t, rules);
    PublishedHolds(t, rules, phase, merge, cutoff);
  }

  lemma AllOfThree<T>(check: T -> bool, a: T, b: T, c: T)
    requires check(a) && check(b) && check(c)
    ensures AllOf(check, [a, b, c])
  {
  }

  lemma PhasesHold(t: Times, rules: Rules, merge: Option<Merge>)
    requires AreOrdered(t) && merge == Some(Merge(t.merged.text, []))
    ensures IsWindow(
      PackageAt(t, rules, WindowStart, None, t.attested.text), PackageAt(t, rules, WindowEnd, None, t.closed.text))
    ensures IsMerged(
      PackageAt(t, rules, WindowEnd, None, t.closed.text), PackageAt(t, rules, PostMerge, merge, t.merged.text))
    ensures HasSoundMerge(merge.value, t.merged.text)
  {
    NotLater(t.merged, t.merged);
  }

  lemma SequenceHolds(t: Times, rules: Rules) returns (packages: seq<Package>)
    requires AreOrdered(t) && AreRules(rules) && rules.validUntil == t.until.text
    ensures IsSoundSequence(packages, rules) && |packages| == 3
    ensures packages[0].root.bundles == BundlesBefore(t, rules)
  {
    var merge := Some(Merge(t.merged.text, []));
    PhasesHold(t, rules, merge);
    PackageHolds(t, rules, WindowStart, None, t.attested);
    PackageHolds(t, rules, WindowEnd, None, t.closed);
    PackageHolds(t, rules, PostMerge, merge, t.merged);
    var start := PackageAt(t, rules, WindowStart, None, t.attested.text);
    var end := PackageAt(t, rules, WindowEnd, None, t.closed.text);
    var post := PackageAt(t, rules, PostMerge, merge, t.merged.text);
    AllOfThree(SoundIn(rules), start, end, post);
    packages := [start, end, post];
  }

  lemma SomeSetting() returns (t: Times, rules: Rules)
    ensures rules == RulesFor(Ordinary)
    ensures rules.expected != [] && AreRules(rules) && AreOrdered(t) && rules.validUntil == t.until.text
  {
    t := SomeTimes();
    rules := CommonRules();
  }

  ghost predicate HasResiduals(b: Bundles) {
    b.frozen.findings != [] && b.frozen.findings[0].status == AcceptedResidual
  }

  lemma ResidualsAreFound(t: Times, rules: Rules)
    requires rules.expected != []
    ensures HasResiduals(BundlesBefore(t, rules))
  {
    var refs := Mapped(ReferenceTo, ReviewsAt(t.taken.text));
    var findings := Findings(rules.expected, t.until.text, t.taken.text, refs);
    assert findings[0] == Accepted(rules.expected[0], t.until.text, t.taken.text, refs);
  }

  /** There is an accepted sequence with a merge, and residuals accepted in it. */
  lemma SomeSequenceIsSound() returns (packages: seq<Package>)
    ensures IsSoundSequence(packages, RulesFor(Ordinary)) && |packages| == 3
    ensures HasResiduals(packages[0].root.bundles)
  {
    var t, rules := SomeSetting();
    ResidualsAreFound(t, rules);
    packages := SequenceHolds(t, rules);
  }
}
