/**
 * `validate_finding_ledger` of `scripts/validate_governance_state.py`: times, identifiers and dispositions of
 * the findings that an evidence package carries.
 */
module FindingLedger {
  import opened Wrappers
  import opened Ordering
  import opened UtcTimestamp

  const RESIDUAL_VALID_UNTIL := "2026-11-14T00:00:00Z"
  const ONE_TIME_RESIDUAL := "GVN-P1-005"
  const COMMON_RESIDUALS: seq<string> := ["GVN-P1-001", "GVN-P1-002", "GVN-P1-003"]

  datatype TargetType = GovernanceBootstrap | ActivationEvidence | Ordinary

  /** The residuals that evidence of this type must dispose of. */
  function ExpectedResiduals(target: TargetType): seq<string> {
    if target.Ordinary? then COMMON_RESIDUALS else COMMON_RESIDUALS + [ONE_TIME_RESIDUAL]
  }

  /** What a ledger is held to: the last instant a residual may cover, and the residuals it must dispose of. */
  datatype Rules = Rules(expected: seq<string>, excluded: set<string>, validUntil: string)

  function RulesFor(target: TargetType): Rules {
    Rules(
      ExpectedResiduals(target), if target.Ordinary? then {ONE_TIME_RESIDUAL} else {}, RESIDUAL_VALID_UNTIL)
  }

  datatype Review = Review(reviewer: string, report: string, started: string, completed: string)

  /** What a disposition quotes of each review. */
  datatype ReportRef = ReportRef(reviewer: string, report: string)

  function ReferenceTo(review: Review): ReportRef {
    ReportRef(review.reviewer, review.report)
  }

  datatype Status = Open | AcceptedResidual | Resolved | DeferredP2

  /** `decidedAt` is the time of acceptance, resolution or deferral in the finding's evidence. */
  datatype Finding = Finding(
    id: string,
    severity: nat,
    status: Status,
    validUntil: Option<string>,
    decidedAt: string,
    reports: seq<ReportRef>)

  /** The identifier lists an attestation repeats. */
  datatype AttestedIds = AttestedIds(findings: seq<string>, accepted: seq<string>)

  /** `(?:GVN|REV)-P[0-2]-[0-9]{3}`, with the severity the finding has. */
  predicate IsFindingId(id: string, severity: nat) {
    && |id| == 10
    && ((id[0] == 'G' && id[1] == 'V' && id[2] == 'N') || (id[0] == 'R' && id[1] == 'E' && id[2] == 'V'))
    && id[3] == '-' && id[4] == 'P'
    && severity <= 2 && id[5] as int == '0' as int + severity
    && id[6] == '-'
    && IsDigit(id[7]) && IsDigit(id[8]) && IsDigit(id[9])
  }

  predicate AreReviewed(reviews: seq<Review>) {
    reviews != [] && forall i :: 0 <= i < |reviews| ==> IsTimestamp(reviews[i].completed)
  }

  ghost predicate IsLatest(reviews: seq<Review>, latest: int)
    requires AreReviewed(reviews)
  {
    && (forall i :: 0 <= i < |reviews| ==> InstantOf(reviews[i].completed) <= latest)
    && (exists i :: 0 <= i < |reviews| && InstantOf(reviews[i].completed) == latest)
  }

  lemma LatestOfTail(reviews: seq<Review>, rest: int)
    requires AreReviewed(reviews) && |reviews| > 1 && IsLatest(reviews[1..], rest)
    ensures var first := InstantOf(reviews[0].completed);
      IsLatest(reviews, if first < rest then rest else first)
  {
    var i :| 0 <= i < |reviews[1..]| && InstantOf(reviews[1..][i].completed) == rest;
    assert InstantOf(reviews[i + 1].completed) == rest;
    forall k | 1 <= k < |reviews|
      ensures InstantOf(reviews[k].completed) <= rest
    {
      assert reviews[1..][k - 1] == reviews[k];
    }
  }

  /** The parsed maximum of the review completions. */
  function LatestCompletion(reviews: seq<Review>): (r: int)
    requires AreReviewed(reviews)
    ensures IsLatest(reviews, r)
  {
    var first := InstantOf(reviews[0].completed);
    if |reviews| == 1 then
      first
    else
      var rest := LatestCompletion(reviews[1..]);
      LatestOfTail(reviews, rest);
      if first < rest then rest else first
  }

  /** The decision came after the fresh reviews and not after the cutoff. */
  predicate IsDecidedInTime(decidedAt: string, latest: int, cutoff: string)
    requires IsTimestamp(cutoff)
  {
    IsTimestamp(decidedAt) && latest <= InstantOf(decidedAt) <= InstantOf(cutoff)
  }

  predicate IsDisposed(f: Finding, rules: Rules, latest: int, cutoff: string, refs: seq<ReportRef>)
    requires IsTimestamp(cutoff)
  {
    && IsFindingId(f.id, f.severity)
    && f.id !in rules.excluded
    && f.status != Open
    && IsDecidedInTime(f.decidedAt, latest, cutoff)
    && f.reports == refs
    && match f.status
       case AcceptedResidual =>
         && f.severity == 1
         && f.id in rules.expected
         && f.validUntil == Some(rules.validUntil)
         && IsTimestamp(rules.validUntil)
         && InstantOf(cutoff) < InstantOf(rules.validUntil)
       case DeferredP2 => f.severity == 2 && f.validUntil == None
       case _ => |f.reports| == 2 && f.validUntil == None
  }

  predicate AllDisposed(findings: seq<Finding>, rules: Rules, latest: int, cutoff: string, refs: seq<ReportRef>)
    requires IsTimestamp(cutoff)
  {
    forall i :: 0 <= i < |findings| ==> IsDisposed(findings[i], rules, latest, cutoff, refs)
  }

  function IdOf(f: Finding): string {
    f.id
  }

  function AcceptedIds(findings: seq<Finding>): seq<string> {
    if findings == [] then
      []
    else
      var last := findings[|findings| - 1];
      AcceptedIds(findings[..|findings| - 1]) + if last.status == AcceptedResidual then [last.id] else []
  }

  /** Equal to its own sorted set: strictly increasing. */
  predicate IsSortedSet(ids: seq<string>) {
    forall i, j :: 0 <= i < j < |ids| ==> StringLeq(ids[i], ids[j]) && ids[i] != ids[j]
  }

  /** Every expected residual is there and properly disposed of. */
  predicate AllFixed(findings: seq<Finding>, expected: seq<string>) {
    forall id :: id in expected ==>
      exists i :: 0 <= i < |findings| && findings[i].id == id && findings[i].status in {AcceptedResidual, Resolved}
  }

  /** What an accepted ledger is. */
  predicate IsAcceptedLedger(
      findings: seq<Finding>, reviews: seq<Review>, cutoff: string, rules: Rules, attested: Option<AttestedIds>)
    requires IsTimestamp(cutoff) && AreReviewed(reviews)
  {
    && AllDisposed(findings, rules, LatestCompletion(reviews), cutoff, Mapped(ReferenceTo, reviews))
    && IsSortedSet(Mapped(IdOf, findings))
    && AllFixed(findings, rules.expected)
    && (attested.Some? ==> attested.value == AttestedIds(Mapped(IdOf, findings), AcceptedIds(findings)))
  }

  /** The disposition of one finding, branch by branch. */
  method CheckFinding(f: Finding, rules: Rules, latest: int, cutoff: string, refs: seq<ReportRef>)
    returns (ok: bool)
    requires IsTimestamp(cutoff)
    ensures ok <==> IsDisposed(f, rules, latest, cutoff, refs)
  {
    if !IsFindingId(f.id, f.severity) || f.id in rules.excluded {
      return false;
    }
    match f.status
    case Open =>
      return false;
    case AcceptedResidual =>
      if f.severity != 1 || f.id !in rules.expected || f.validUntil.None? {
        return false;
      }
      var until := f.validUntil.value;
      if !IsTimestamp(until) || until != rules.validUntil || InstantOf(cutoff) >= InstantOf(until) {
        return false;
      }
      ok := IsDecidedInTime(f.decidedAt, latest, cutoff) && f.reports == refs;
    case Resolved =>
      ok := IsDecidedInTime(f.decidedAt, latest, cutoff)
            && |f.reports| == 2 && f.reports == refs && f.validUntil == None;
    case DeferredP2 =>
      ok := f.severity == 2 && f.validUntil == None
            && IsDecidedInTime(f.decidedAt, latest, cutoff) && f.reports == refs;
  }

  lemma {:induction false} AcceptedIdsAreFound(findings: seq<Finding>, id: string)
    ensures id in AcceptedIds(findings) <==>
      exists i :: 0 <= i < |findings| && findings[i].id == id && findings[i].status == AcceptedResidual
  {
    if findings != [] {
      var init, last := findings[..|findings| - 1], findings[|findings| - 1];
      AcceptedIdsAreFound(init, id);
      assert findings == init + [last];
    }
  }

  /**
   * What an accepted ledger leaves of its findings, by severity: of P0 all are resolved; of P1 those that are not
   * are expected residuals, accepted for longer than the cutoff; of P2 those that are not are deferred. Every expected
   * residual has one finding and is not left open. What an attestation must list as accepted are exactly the P1 ones.
   */
  lemma LedgerBySeverity(
      findings: seq<Finding>, reviews: seq<Review>, cutoff: string, rules: Rules, attested: Option<AttestedIds>,
      i: nat)
    requires IsTimestamp(cutoff) && AreReviewed(reviews) && i < |findings|
    requires IsAcceptedLedger(findings, reviews, cutoff, rules, attested)
    ensures var f := findings[i];
      && f.severity <= 2
      && (f.status != Resolved ==>
           || (f.severity == 1 && f.id in rules.expected && f.status == AcceptedResidual
               && IsTimestamp(rules.validUntil) && InstantOf(cutoff) < InstantOf(rules.validUntil))
           || (f.severity == 2 && f.status == DeferredP2))
      && (attested.Some? ==> (f.id in attested.value.accepted <==> f.severity == 1 && f.status != Resolved))
      && (forall j :: 0 <= j < |findings| && findings[j].id == f.id ==> j == i)
    ensures forall id :: id in rules.expected ==> exists j :: 0 <= j < |findings| && findings[j].id == id
  {
    var refs := Mapped(ReferenceTo, reviews);
    assert IsDisposed(findings[i], rules, LatestCompletion(reviews), cutoff, refs);
    SortedSetIsDistinct(findings);
    AcceptedIdsAreFound(findings, findings[i].id);
  }

  /** The statuses of the expected residuals in the findings, the last one for each identifier. */
  function Fixed(findings: seq<Finding>, expected: seq<string>): map<string, Status> {
    if findings == [] then
      map[]
    else
      var last, before := findings[|findings| - 1], Fixed(findings[..|findings| - 1], expected);
      if last.id in expected then before[last.id := last.status] else before
  }

  lemma {:induction false} FixedFinds(findings: seq<Finding>, expected: seq<string>, id: string)
    requires forall i, j :: 0 <= i < j < |findings| ==> findings[i].id != findings[j].id
    ensures id in Fixed(findings, expected) <==>
      id in expected && exists i :: 0 <= i < |findings| && findings[i].id == id
    ensures forall i :: 0 <= i < |findings| && findings[i].id == id && id in expected ==>
      id in Fixed(findings, expected) && Fixed(findings, expected)[id] == findings[i].status
  {
    if findings != [] {
      FixedFinds(findings[..|findings| - 1], expected, id);
      assert findings == findings[..|findings| - 1] + [findings[|findings| - 1]];
    }
  }

  lemma SortedSetIsDistinct(findings: seq<Finding>)
    requires IsSortedSet(Mapped(IdOf, findings))
    ensures forall i, j :: 0 <= i < j < |findings| ==> findings[i].id != findings[j].id
  {
    forall i, j | 0 <= i < j < |findings|
      ensures findings[i].id != findings[j].id
    {
      var ids := Mapped(IdOf, findings);
      assert ids[i] == findings[i].id && ids[j] == findings[j].id;
    }
  }

  lemma FixedDecides(findings: seq<Finding>, expected: seq<string>)
    requires IsSortedSet(Mapped(IdOf, findings))
    ensures var fixed := Fixed(findings, expected);
      AllFixed(findings, expected) <==>
      && (forall id :: id in expected ==> id in fixed)
      && (forall id :: id in fixed ==> fixed[id] in {AcceptedResidual, Resolved})
  {
    SortedSetIsDistinct(findings);
    var fixed := Fixed(findings, expected);
    forall id | id in expected || id in fixed
      ensures id in fixed <==> id in expected && exists i :: 0 <= i < |findings| && findings[i].id == id
      ensures forall i :: 0 <= i < |findings| && findings[i].id == id && id in expected ==>
        id in fixed && fixed[id] == findings[i].status
    {
      FixedFinds(findings, expected, id);
    }
  }

  lemma ListsGrow(findings: seq<Finding>, i: nat)
    requires i < |findings|
    ensures Mapped(IdOf, findings[..i + 1]) == Mapped(IdOf, findings[..i]) + [findings[i].id]
    ensures AcceptedIds(findings[..i + 1])
         == AcceptedIds(findings[..i]) + if findings[i].status == AcceptedResidual then [findings[i].id] else []
  {
    var longer := findings[..i + 1];
    assert longer[..|longer| - 1] == findings[..i] && longer[|longer| - 1] == findings[i];
    assert Mapped(IdOf, longer) == Mapped(IdOf, findings[..i]) + [IdOf(findings[i])];
  }

  lemma DisposedGrows(
      findings: seq<Finding>, i: nat, rules: Rules, latest: int, cutoff: string, refs: seq<ReportRef>)
    requires i < |findings| && IsTimestamp(cutoff) && AllDisposed(findings[..i], rules, latest, cutoff, refs)
    ensures if IsDisposed(findings[i], rules, latest, cutoff, refs)
      then AllDisposed(findings[..i + 1], rules, latest, cutoff, refs)
      else !AllDisposed(findings, rules, latest, cutoff, refs)
  {
    assert findings[..i + 1] == findings[..i] + [findings[i]];
  }

  /** The first pass: every finding is disposed of, and its identifiers are collected. */
  method CollectIds(findings: seq<Finding>, rules: Rules, latest: int, cutoff: string, refs: seq<ReportRef>)
    returns (r: Option<AttestedIds>)
    requires IsTimestamp(cutoff)
    ensures r.Some? <==> AllDisposed(findings, rules, latest, cutoff, refs)
    ensures r.Some? ==> r.value == AttestedIds(Mapped(IdOf, findings), AcceptedIds(findings))
  {
    var ids: seq<string>, accepted: seq<string> := [], [];
    for i := 0 to |findings|
      invariant AllDisposed(findings[..i], rules, latest, cutoff, refs)
      invariant ids == Mapped(IdOf, findings[..i])
      invariant accepted == AcceptedIds(findings[..i])
    {
      var disposed := CheckFinding(findings[i], rules, latest, cutoff, refs);
      DisposedGrows(findings, i, rules, latest, cutoff, refs);
      if !disposed {
        return None;
      }
      ListsGrow(findings, i);
      if findings[i].status == AcceptedResidual {
        accepted := accepted + [findings[i].id];
      }
      ids := ids + [findings[i].id];
    }
    assert findings[..|findings|] == findings;
    r := Some(AttestedIds(ids, accepted));
  }

  /** The second pass, over the fixed residuals. */
  method CollectFixed(findings: seq<Finding>, expected: seq<string>) returns (fixed: map<string, Status>)
    ensures fixed == Fixed(findings, expected)
  {
    fixed := map[];
    for i := 0 to |findings|
      invariant fixed == Fixed(findings[..i], expected)
    {
      assert findings[..i + 1][..i] == findings[..i];
      if findings[i].id in expected {
        fixed := fixed[findings[i].id := findings[i].status];
      }
    }
    assert findings[..|findings|] == findings;
  }

  method ValidateFindingLedger(
      findings: seq<Finding>, reviews: seq<Review>, cutoff: string, rules: Rules, attested: Option<AttestedIds>)
    returns (ok: bool)
    requires IsTimestamp(cutoff) && AreReviewed(reviews)
    ensures ok <==> IsAcceptedLedger(findings, reviews, cutoff, rules, attested)
  {
    var collected :=
      CollectIds(findings, rules, LatestCompletion(reviews), cutoff, Mapped(ReferenceTo, reviews));
    if collected.None? || !IsSortedSet(collected.value.findings) {
      return false;
    }
    var fixed := CollectFixed(findings, rules.expected);
    FixedDecides(findings, rules.expected);
    var complete := (forall id :: id in rules.expected ==> id in fixed)
                    && (forall id :: id in fixed ==> fixed[id] in {AcceptedResidual, Resolved});
    assert complete <==> AllFixed(findings, rules.expected);
    ok := complete && (attested.None? || attested.value == collected.value);
  }
}
