/**
 * The time line of an evidence sequence in `scripts/validate_governance_state.py`: what the checks on single
 * packages, some on strings and some on parsed times, amount to for a whole start/end/post sequence.
 *
 * Of the endpoint bundles the model keeps what carries times, comments or findings; everything else is one
 * opaque value per group of components. Equality of canonical bytes is equality of the modelled values.
 */
module EvidenceTimeline {
  import opened Wrappers
  import opened Ordering
  import opened UtcTimestamp
  import opened FindingLedger

  datatype Comment = Comment(
    id: nat, login: string, userId: nat, body: string, createdAt: string, updatedAt: string)

  /** A check run, job or execution. */
  datatype Span = Span(started: string, completed: string)

  datatype WorkflowRun = WorkflowRun(created: string, started: string, updated: string)

  /** The pull request without its update time and comment count, and its update time and comment count. */
  datatype Pull = Pull(others: string, updatedAt: string, comments: nat)

  datatype Metadata = Metadata(others: string, updatedAt: string)

  /** The components that publishing the attestation must not change. */
  datatype Frozen = Frozen(
    committedAt: string,
    reviews: seq<Review>,
    spans: seq<Span>,
    runs: seq<WorkflowRun>,
    findings: seq<Finding>,
    others: string)

  datatype Bundles = Bundles(
    pull: Pull, metadata: Metadata, threads: string, comments: seq<Comment>, frozen: Frozen)

  datatype Root = Root(bundles: Bundles, cutoff: string)

  datatype Attestation = Attestation(login: string, userId: nat, ids: AttestedIds, text: string)

  datatype Delta = Delta(
    commentId: nat,
    commentCreatedAt: string,
    commentUpdatedAt: string,
    pullUpdatedBefore: string,
    pullUpdatedAfter: string,
    commentsBefore: nat,
    commentsAfter: nat)

  datatype Merge = Merge(mergedAt: string, checks: seq<Span>)

  datatype Phase = PreAttestation | WindowStart | WindowEnd | PostMerge

  /** What a package holds once the attestation is published. */
  datatype Published = Published(
    attestation: Attestation, delta: Delta, bundles: Bundles, comment: Comment, merge: Option<Merge>, cutoff: string)

  datatype Package = Package(phase: Phase, root: Root, published: Option<Published>)

  // ----- one package -----

  /** Both ends are timestamps and, as strings, lie between the bounds. */
  predicate IsSpanWithin(span: Span, from: string, to: string) {
    && IsTimestamp(span.started) && IsTimestamp(span.completed)
    && StringLeq(from, span.started) && StringLeq(span.started, span.completed) && StringLeq(span.completed, to)
  }

  /** Commit, reviews, checks and runs lie between the commit and the cutoff. */
  predicate HasSoundFrozenTimes(f: Frozen, cutoff: string) {
    && IsTimestamp(f.committedAt) && StringLeq(f.committedAt, cutoff)
    && |f.reviews| == 2
    && (forall i :: 0 <= i < |f.reviews| ==> IsSpanWithin(SpanOf(f.reviews[i]), f.committedAt, cutoff))
    && (forall i :: 0 <= i < |f.spans| ==> IsSpanWithin(f.spans[i], f.committedAt, cutoff))
    && (forall i :: 0 <= i < |f.runs| ==> IsSoundRun(f.runs[i], f.committedAt, cutoff))
  }

  /** The times in `validate_package_response_semantics`. */
  predicate HasSoundTimes(b: Bundles, cutoff: string) {
    && IsTimestamp(cutoff)
    && IsTimestamp(b.pull.updatedAt) && InstantOf(b.pull.updatedAt) <= InstantOf(cutoff)
    && HasSoundFrozenTimes(b.frozen, cutoff)
    && forall i :: 0 <= i < |b.comments| ==> IsSoundComment(b.comments[i], cutoff)
  }

  function SpanOf(review: Review): Span {
    Span(review.started, review.completed)
  }

  predicate IsSoundComment(c: Comment, cutoff: string) {
    && IsTimestamp(c.createdAt) && IsTimestamp(c.updatedAt)
    && StringLeq(c.createdAt, c.updatedAt) && StringLeq(c.updatedAt, cutoff)
  }

  predicate IsSoundRun(run: WorkflowRun, from: string, to: string) {
    && IsTimestamp(run.created) && IsTimestamp(run.started) && IsTimestamp(run.updated)
    && StringLeq(from, run.created) && StringLeq(run.created, run.started)
    && StringLeq(run.started, run.updated) && StringLeq(run.updated, to)
  }

  /** The times in `validate_merge_response_semantics`. */
  predicate HasSoundMerge(merge: Merge, cutoff: string) {
    && IsTimestamp(merge.mergedAt) && StringLeq(merge.mergedAt, cutoff)
    && forall i :: 0 <= i < |merge.checks| ==> IsSpanWithin(merge.checks[i], merge.mergedAt, cutoff)
  }

  predicate HasDistinctIds(comments: seq<Comment>) {
    forall i, j :: 0 <= i < j < |comments| ==> comments[i].id != comments[j].id
  }

  /** `validate_publication_delta_v1`. */
  predicate IsPublication(delta: Delta, pre: Bundles, p: Published, preCutoff: string) {
    && IsTimestamp(delta.commentCreatedAt) && IsTimestamp(delta.commentUpdatedAt)
    && IsTimestamp(delta.pullUpdatedBefore) && IsTimestamp(delta.pullUpdatedAfter)
    && pre.frozen == p.bundles.frozen
    && pre.pull == Pull(p.bundles.pull.others, delta.pullUpdatedBefore, delta.commentsBefore)
    && p.bundles.pull == Pull(pre.pull.others, delta.pullUpdatedAfter, delta.commentsAfter)
    && delta.commentsAfter == delta.commentsBefore + 1
    && pre.metadata == Metadata(p.bundles.metadata.others, delta.pullUpdatedBefore)
    && p.bundles.metadata == Metadata(pre.metadata.others, delta.pullUpdatedAfter)
    && pre.threads == p.bundles.threads
    && HasDistinctIds(pre.comments) && HasDistinctIds(p.bundles.comments)
    && |p.bundles.comments| == |pre.comments| + 1
    && p.bundles.comments[..|pre.comments|] == pre.comments
    && p.bundles.comments[|pre.comments|] == p.comment
    && (forall i :: 0 <= i < |pre.comments| ==> pre.comments[i].id != p.comment.id)
    && p.comment.id == delta.commentId
    && p.comment.createdAt == delta.commentCreatedAt && p.comment.updatedAt == delta.commentUpdatedAt
    && p.comment.login == p.attestation.login && p.comment.userId == p.attestation.userId
    && p.comment.body == p.attestation.text
    && delta.pullUpdatedAfter == delta.commentUpdatedAt
    && delta.commentsBefore == |pre.comments| && delta.commentsAfter == |p.bundles.comments|
    && IsTimestamp(preCutoff) && IsTimestamp(p.cutoff)
    && InstantOf(preCutoff) < InstantOf(delta.commentCreatedAt)
    && InstantOf(delta.commentCreatedAt) <= InstantOf(delta.commentUpdatedAt)
    && InstantOf(delta.commentUpdatedAt) <= InstantOf(p.cutoff)
  }

  lemma SoundTimesAreReviewed(b: Bundles, cutoff: string)
    requires HasSoundTimes(b, cutoff)
    ensures IsTimestamp(cutoff) && AreReviewed(b.frozen.reviews)
  {
    forall i | 0 <= i < |b.frozen.reviews|
      ensures IsTimestamp(b.frozen.reviews[i].completed)
    {
      assert IsSpanWithin(SpanOf(b.frozen.reviews[i]), b.frozen.committedAt, cutoff);
    }
  }

  /** The bundles are sound at the cutoff, and so is their finding ledger. */
  predicate AreSoundBundles(b: Bundles, cutoff: string, rules: Rules, attested: Option<AttestedIds>) {
    && HasSoundTimes(b, cutoff)
    && (SoundTimesAreReviewed(b, cutoff);
        IsAcceptedLedger(b.frozen.findings, b.frozen.reviews, cutoff, rules, attested))
  }

  /** `validate_evidence_package_v2`; the program's rules are those of the evidence's target type. */
  predicate IsSoundPackage(p: Package, rules: Rules) {
    && AreSoundBundles(p.root.bundles, p.root.cutoff, rules, None)
    && (p.phase == PreAttestation <==> p.published.None?)
    && (p.published.Some? ==> IsSoundPublished(p.phase, rules, p.root, p.published.value))
  }

  predicate IsSoundPublished(phase: Phase, rules: Rules, root: Root, p: Published) {
    && AreSoundBundles(p.bundles, p.cutoff, rules, Some(p.attestation.ids))
    && (phase == PostMerge <==> p.merge.Some?)
    && (p.merge.Some? ==> HasSoundMerge(p.merge.value, p.cutoff))
    && IsTimestamp(root.cutoff) && IsTimestamp(p.cutoff) && InstantOf(p.cutoff) > InstantOf(root.cutoff)
    && IsPublication(p.delta, root.bundles, p, root.cutoff)
  }

  // ----- the sequence -----

  const WINDOW_SECONDS: int := 600

  /** The parts of two packages that must be canonically equal. */
  predicate AgreeOnPublication(a: Package, b: Package)
    requires a.published.Some? && b.published.Some?
  {
    && a.root == b.root
    && a.published.value.attestation == b.published.value.attestation
    && a.published.value.delta == b.published.value.delta
    && a.published.value.bundles == b.published.value.bundles
    && a.published.value.comment == b.published.value.comment
  }

  /** `validate_evidence_sequence` for a lone pre-attestation package, a window, or a window and its merge. */
  predicate IsSoundSequence(packages: seq<Package>, rules: Rules) {
    AreSoundPackages(packages, rules) && HasSoundPhases(packages)
  }

  predicate AllOf<T>(check: T -> bool, items: seq<T>) {
    forall i :: 0 <= i < |items| ==> check(items[i])
  }

  function SoundIn(rules: Rules): Package -> bool {
    p => IsSoundPackage(p, rules)
  }

  predicate AreSoundPackages(packages: seq<Package>, rules: Rules) {
    AllOf(SoundIn(rules), packages)
  }

  predicate HasSoundPhases(packages: seq<Package>) {
    if |packages| == 1 then packages[0].phase == PreAttestation
    else if |packages| == 2 then IsWindow(packages[0], packages[1])
    else |packages| == 3 && IsWindow(packages[0], packages[1]) && IsMerged(packages[1], packages[2])
  }

  predicate IsWindow(start: Package, end: Package) {
    && start.phase == WindowStart && end.phase == WindowEnd
    && start.published.Some? && end.published.Some?
    && AgreeOnPublication(start, end)
    && IsTimestamp(start.published.value.cutoff) && IsTimestamp(end.published.value.cutoff)
    && InstantOf(end.published.value.cutoff) - InstantOf(start.published.value.cutoff) >= WINDOW_SECONDS
  }

  predicate IsMerged(end: Package, post: Package) {
    && end.phase == WindowEnd && post.phase == PostMerge
    && end.published.Some? && post.published.Some?
    && AgreeOnPublication(end, post)
    && IsTimestamp(end.published.value.cutoff) && IsTimestamp(post.published.value.cutoff)
    && InstantOf(post.published.value.cutoff) > InstantOf(end.published.value.cutoff)
    && post.published.value.merge.Some?
    && var mergedAt := post.published.value.merge.value.mergedAt;
       && IsTimestamp(mergedAt)
       && InstantOf(end.published.value.cutoff) < InstantOf(mergedAt) <= InstantOf(post.published.value.cutoff)
  }

  // ----- what it amounts to -----

  /** The instants from `a` to `b`, both of them timestamps, do not go back. */
  ghost predicate NotAfter(a: string, b: string) {
    IsTimestamp(a) && IsTimestamp(b) && InstantOf(a) <= InstantOf(b)
  }

  ghost predicate Before(a: string, b: string) {
    IsTimestamp(a) && IsTimestamp(b) && InstantOf(a) < InstantOf(b)
  }

  /** The span lies between two instants. */
  ghost predicate IsBetween(span: Span, from: string, to: string) {
    NotAfter(from, span.started) && NotAfter(span.started, span.completed) && NotAfter(span.completed, to)
  }

  ghost predicate IsRunBetween(run: WorkflowRun, from: string, to: string) {
    && NotAfter(from, run.created) && NotAfter(run.created, run.started)
    && NotAfter(run.started, run.updated) && NotAfter(run.updated, to)
  }

  lemma StringsAreInstants(a: string, b: string)
    ensures IsTimestamp(a) && IsTimestamp(b) ==> (StringLeq(a, b) <==> NotAfter(a, b))
  {
    if IsTimestamp(a) && IsTimestamp(b) {
      OrdersAgree(a, b);
    }
  }

  lemma SpanByInstants(span: Span, from: string, to: string)
    requires IsTimestamp(from) && IsTimestamp(to)
    ensures IsSpanWithin(span, from, to) <==> IsBetween(span, from, to)
  {
    StringsAreInstants(from, span.started);
    StringsAreInstants(span.started, span.completed);
    StringsAreInstants(span.completed, to);
  }

  lemma SpanInOrder(span: Span, from: string, to: string)
    requires IsSpanWithin(span, from, to) && IsTimestamp(from) && IsTimestamp(to)
    ensures NotAfter(from, span.started) && NotAfter(span.started, span.completed) && NotAfter(span.completed, to)
  {
    SpanByInstants(span, from, to);
  }

  lemma RunByInstants(run: WorkflowRun, from: string, to: string)
    requires IsTimestamp(from) && IsTimestamp(to)
    ensures IsSoundRun(run, from, to) <==> IsRunBetween(run, from, to)
  {
    StringsAreInstants(from, run.created);
    StringsAreInstants(run.created, run.started);
    StringsAreInstants(run.started, run.updated);
    StringsAreInstants(run.updated, to);
  }

  ghost predicate IsCommentBefore(c: Comment, cutoff: string) {
    NotAfter(c.createdAt, c.updatedAt) && NotAfter(c.updatedAt, cutoff)
  }

  lemma CommentByInstants(c: Comment, cutoff: string)
    requires IsTimestamp(cutoff)
    ensures IsSoundComment(c, cutoff) <==> IsCommentBefore(c, cutoff)
  {
    StringsAreInstants(c.createdAt, c.updatedAt);
    StringsAreInstants(c.updatedAt, cutoff);
  }

  ghost predicate IsFrozenBetween(f: Frozen, cutoff: string) {
    && NotAfter(f.committedAt, cutoff)
    && |f.reviews| == 2
    && (forall i :: 0 <= i < |f.reviews| ==> IsBetween(SpanOf(f.reviews[i]), f.committedAt, cutoff))
    && (forall i :: 0 <= i < |f.spans| ==> IsBetween(f.spans[i], f.committedAt, cutoff))
    && (forall i :: 0 <= i < |f.runs| ==> IsRunBetween(f.runs[i], f.committedAt, cutoff))
  }

  lemma SpansByInstants(spans: seq<Span>, from: string, to: string)
    requires IsTimestamp(from) && IsTimestamp(to)
    ensures (forall i :: 0 <= i < |spans| ==> IsSpanWithin(spans[i], from, to)) <==>
      forall i :: 0 <= i < |spans| ==> IsBetween(spans[i], from, to)
  {
    forall i | 0 <= i < |spans|
      ensures IsSpanWithin(spans[i], from, to) <==> IsBetween(spans[i], from, to)
    {
      SpanByInstants(spans[i], from, to);
    }
  }

  lemma ReviewsByInstants(reviews: seq<Review>, from: string, to: string)
    requires IsTimestamp(from) && IsTimestamp(to)
    ensures (forall i :: 0 <= i < |reviews| ==> IsSpanWithin(SpanOf(reviews[i]), from, to)) <==>
      forall i :: 0 <= i < |reviews| ==> IsBetween(SpanOf(reviews[i]), from, to)
  {
    forall i | 0 <= i < |reviews|
      ensures IsSpanWithin(SpanOf(reviews[i]), from, to) <==> IsBetween(SpanOf(reviews[i]), from, to)
    {
      SpanByInstants(SpanOf(reviews[i]), from, to);
    }
  }

  lemma RunsByInstants(runs: seq<WorkflowRun>, from: string, to: string)
    requires IsTimestamp(from) && IsTimestamp(to)
    ensures (forall i :: 0 <= i < |runs| ==> IsSoundRun(runs[i], from, to)) <==>
      forall i :: 0 <= i < |runs| ==> IsRunBetween(runs[i], from, to)
  {
    forall i | 0 <= i < |runs|
      ensures IsSoundRun(runs[i], from, to) <==> IsRunBetween(runs[i], from, to)
    {
      RunByInstants(runs[i], from, to);
    }
  }

  lemma FrozenByInstants(f: Frozen, cutoff: string)
    requires IsTimestamp(cutoff)
    ensures HasSoundFrozenTimes(f, cutoff) <==> IsFrozenBetween(f, cutoff)
  {
    StringsAreInstants(f.committedAt, cutoff);
    if IsTimestamp(f.committedAt) {
      SpansByInstants(f.spans, f.committedAt, cutoff);
      RunsByInstants(f.runs, f.committedAt, cutoff);
      ReviewsByInstants(f.reviews, f.committedAt, cutoff);
    }
  }

  /** What the checks on one package decide, some of them on strings and some on instants, is order in time. */
  lemma TimesAreOrder(b: Bundles, cutoff: string)
    ensures HasSoundTimes(b, cutoff) <==>
      && NotAfter(b.pull.updatedAt, cutoff)
      && IsFrozenBetween(b.frozen, cutoff)
      && forall i :: 0 <= i < |b.comments| ==> IsCommentBefore(b.comments[i], cutoff)
  {
    if IsTimestamp(cutoff) {
      FrozenByInstants(b.frozen, cutoff);
      forall i | 0 <= i < |b.comments|
        ensures IsSoundComment(b.comments[i], cutoff) <==> IsCommentBefore(b.comments[i], cutoff)
      {
        CommentByInstants(b.comments[i], cutoff);
      }
    }
  }

  /** Commit, reviews and decisions of one set of bundles, in order, and residuals that outlive the cutoff. */
  ghost predicate IsOrderedEvidence(b: Bundles, cutoff: string) {
    && (forall i :: 0 <= i < |b.frozen.reviews| ==>
         && NotAfter(b.frozen.committedAt, b.frozen.reviews[i].started)
         && NotAfter(b.frozen.reviews[i].started, b.frozen.reviews[i].completed))
    && (forall i, j :: 0 <= i < |b.frozen.reviews| && 0 <= j < |b.frozen.findings| ==>
         NotAfter(b.frozen.reviews[i].completed, b.frozen.findings[j].decidedAt))
    && (forall j :: 0 <= j < |b.frozen.findings| ==> NotAfter(b.frozen.findings[j].decidedAt, cutoff))
    && (forall j :: 0 <= j < |b.frozen.findings| && b.frozen.findings[j].status == AcceptedResidual ==>
         b.frozen.findings[j].validUntil.Some? && Before(cutoff, b.frozen.findings[j].validUntil.value))
  }

  lemma ReviewsInOrder(b: Bundles, cutoff: string, i: nat)
    requires HasSoundTimes(b, cutoff) && i < |b.frozen.reviews|
    ensures NotAfter(b.frozen.committedAt, b.frozen.reviews[i].started)
    ensures NotAfter(b.frozen.reviews[i].started, b.frozen.reviews[i].completed)
  {
    SpanInOrder(SpanOf(b.frozen.reviews[i]), b.frozen.committedAt, cutoff);
  }

  lemma DecisionInOrder(
      f: Finding, reviews: seq<Review>, i: nat, rules: Rules, cutoff: string, refs: seq<ReportRef>)
    requires IsTimestamp(cutoff) && AreReviewed(reviews) && i < |reviews|
    requires IsDisposed(f, rules, LatestCompletion(reviews), cutoff, refs)
    ensures NotAfter(reviews[i].completed, f.decidedAt) && NotAfter(f.decidedAt, cutoff)
    ensures f.status == AcceptedResidual ==> f.validUntil.Some? && Before(cutoff, f.validUntil.value)
  {
  }

  lemma LedgerInOrder(
      findings: seq<Finding>, reviews: seq<Review>, cutoff: string, rules: Rules, attested: Option<AttestedIds>,
      i: nat, j: nat)
    requires IsTimestamp(cutoff) && AreReviewed(reviews) && i < |reviews| && j < |findings|
    requires IsAcceptedLedger(findings, reviews, cutoff, rules, attested)
    ensures NotAfter(reviews[i].completed, findings[j].decidedAt) && NotAfter(findings[j].decidedAt, cutoff)
    ensures findings[j].status == AcceptedResidual ==>
      findings[j].validUntil.Some? && Before(cutoff, findings[j].validUntil.value)
  {
    var refs := Mapped(ReferenceTo, reviews);
    assert AllDisposed(findings, rules, LatestCompletion(reviews), cutoff, refs);
    assert IsDisposed(findings[j], rules, LatestCompletion(reviews), cutoff, refs);
    DecisionInOrder(findings[j], reviews, i, rules, cutoff, refs);
  }

  lemma SoundBundlesAreOrdered(b: Bundles, cutoff: string, rules: Rules, attested: Option<AttestedIds>)
    requires AreSoundBundles(b, cutoff, rules, attested)
    ensures IsOrderedEvidence(b, cutoff)
  {
    SoundTimesAreReviewed(b, cutoff);
    var reviews, findings := b.frozen.reviews, b.frozen.findings;
    forall i | 0 <= i < |reviews|
      ensures NotAfter(b.frozen.committedAt, reviews[i].started) && NotAfter(reviews[i].started, reviews[i].completed)
    {
      ReviewsInOrder(b, cutoff, i);
    }
    forall i, j | 0 <= i < |reviews| && 0 <= j < |findings|
      ensures NotAfter(reviews[i].completed, findings[j].decidedAt)
    {
      LedgerInOrder(findings, reviews, cutoff, rules, attested, i, j);
    }
    forall j | 0 <= j < |findings|
      ensures NotAfter(findings[j].decidedAt, cutoff)
      ensures findings[j].status == AcceptedResidual ==>
        findings[j].validUntil.Some? && Before(cutoff, findings[j].validUntil.value)
    {
      LedgerInOrder(findings, reviews, cutoff, rules, attested, 0, j);
    }
  }

  lemma PublicationInOrder(root: Root, p: Published)
    requires IsPublication(p.delta, root.bundles, p, root.cutoff)
    ensures Before(root.cutoff, p.comment.createdAt)
    ensures NotAfter(p.comment.createdAt, p.comment.updatedAt)
    ensures NotAfter(p.comment.updatedAt, p.cutoff)
    ensures p.bundles.comments == root.bundles.comments + [p.comment]
    ensures p.bundles.frozen == root.bundles.frozen
  {
    var comments, n := p.bundles.comments, |root.bundles.comments|;
    assert comments == comments[..n] + [comments[n]];
  }

  /** What publishing one comment makes of the bundles, and what a delta says of it. */
  function PublishedBundles(pre: Bundles, comment: Comment): Bundles {
    Bundles(
      Pull(pre.pull.others, comment.updatedAt, |pre.comments| + 1),
      Metadata(pre.metadata.others, comment.updatedAt),
      pre.threads,
      pre.comments + [comment],
      pre.frozen)
  }

  function DeltaOf(pre: Bundles, comment: Comment): Delta {
    Delta(
      comment.id, comment.createdAt, comment.updatedAt, pre.pull.updatedAt, comment.updatedAt,
      |pre.comments|, |pre.comments| + 1)
  }

  /**
   * The publication check leaves no choice: it accepts exactly if bundles and delta are those that the earlier
   * bundles and the attestor's one new comment determine, the earlier bundles were consistent about their
   * comments and update time, and the comment was made between the cutoffs.
   */
  lemma PublicationIsDetermined(delta: Delta, pre: Bundles, p: Published, preCutoff: string)
    ensures IsPublication(delta, pre, p, preCutoff) <==>
      && p.bundles == PublishedBundles(pre, p.comment)
      && delta == DeltaOf(pre, p.comment)
      && pre.pull.comments == |pre.comments|
      && pre.pull.updatedAt == pre.metadata.updatedAt && IsTimestamp(pre.pull.updatedAt)
      && HasDistinctIds(pre.comments + [p.comment])
      && p.comment.login == p.attestation.login && p.comment.userId == p.attestation.userId
      && p.comment.body == p.attestation.text
      && Before(preCutoff, p.comment.createdAt)
      && NotAfter(p.comment.createdAt, p.comment.updatedAt)
      && NotAfter(p.comment.updatedAt, p.cutoff)
  {
    var n, comments := |pre.comments|, p.bundles.comments;
    if |comments| == n + 1 {
      assert comments == comments[..n] + [comments[n]];
    }
    assert (pre.comments + [p.comment])[..n] == pre.comments;
    NewIdIsDistinct(pre.comments, p.comment);
  }

  lemma NewIdIsDistinct(comments: seq<Comment>, comment: Comment)
    ensures HasDistinctIds(comments + [comment]) <==>
      HasDistinctIds(comments) && forall i :: 0 <= i < |comments| ==> comments[i].id != comment.id
  {
    var all, n := comments + [comment], |comments|;
    assert forall i :: 0 <= i < n ==> all[i] == comments[i];
    if HasDistinctIds(all) {
      assert forall i :: 0 <= i < n ==> all[i].id != all[n].id;
    }
  }

  lemma PublishedIsOrdered(phase: Phase, rules: Rules, root: Root, p: Published)
    requires IsSoundPublished(phase, rules, root, p)
    ensures IsOrderedEvidence(p.bundles, p.cutoff)
  {
    SoundBundlesAreOrdered(p.bundles, p.cutoff, rules, Some(p.attestation.ids));
  }

  /** The merge comes before the cutoff, and every post-merge check lies between the two. */
  ghost predicate IsOrderedMerge(merge: Merge, cutoff: string) {
    && NotAfter(merge.mergedAt, cutoff)
    && forall i :: 0 <= i < |merge.checks| ==>
         && NotAfter(merge.mergedAt, merge.checks[i].started)
         && NotAfter(merge.checks[i].started, merge.checks[i].completed)
         && NotAfter(merge.checks[i].completed, cutoff)
  }

  lemma SoundMergeIsOrdered(merge: Merge, cutoff: string)
    requires HasSoundMerge(merge, cutoff) && IsTimestamp(cutoff)
    ensures IsOrderedMerge(merge, cutoff)
  {
    OrdersAgree(merge.mergedAt, cutoff);
    forall i | 0 <= i < |merge.checks|
      ensures NotAfter(merge.mergedAt, merge.checks[i].started)
      ensures NotAfter(merge.checks[i].started, merge.checks[i].completed)
      ensures NotAfter(merge.checks[i].completed, cutoff)
    {
      SpanInOrder(merge.checks[i], merge.mergedAt, cutoff);
    }
  }

  /** Everything up to the end of the window, in order, with one comment appended on the way. */
  ghost predicate IsOrderedWindow(root: Root, start: Published, end: Published) {
    && IsOrderedEvidence(root.bundles, root.cutoff)
    && Before(root.cutoff, start.comment.createdAt)
    && NotAfter(start.comment.createdAt, start.comment.updatedAt)
    && NotAfter(start.comment.updatedAt, start.cutoff)
    && IsTimestamp(start.cutoff) && IsTimestamp(end.cutoff)
    && InstantOf(start.cutoff) + WINDOW_SECONDS <= InstantOf(end.cutoff)
    && start.bundles == end.bundles
    && end.bundles.comments == root.bundles.comments + [end.comment]
  }

  lemma SoundWindowIsOrdered(start: Package, end: Package, rules: Rules)
    requires IsSoundPackage(start, rules) && IsWindow(start, end)
    ensures IsOrderedWindow(start.root, start.published.value, end.published.value)
  {
    SoundBundlesAreOrdered(start.root.bundles, start.root.cutoff, rules, None);
    PublicationInOrder(start.root, start.published.value);
  }

  /**
   * The time line of a window: commit, reviews, decisions, first cutoff, the attestation's creation and update,
   * and the two window cutoffs at least 600 seconds apart; the attestation is the one comment appended.
   */
  lemma WindowIsOrdered(packages: seq<Package>, rules: Rules)
    requires IsSoundSequence(packages, rules) && 2 <= |packages| <= 3
    ensures packages[0].published.Some? && packages[1].published.Some?
    ensures IsOrderedWindow(packages[0].root, packages[0].published.value, packages[1].published.value)
  {
    assert SoundIn(rules)(packages[0]);
    SoundWindowIsOrdered(packages[0], packages[1], rules);
  }

  /** The merge after the window, the post-merge checks, and residuals that outlive them all. */
  ghost predicate IsOrderedEnding(root: Root, end: Published, post: Published) {
    && post.merge.Some?
    && Before(end.cutoff, post.merge.value.mergedAt)
    && IsOrderedMerge(post.merge.value, post.cutoff)
    && IsOrderedEvidence(post.bundles, post.cutoff)
    && post.bundles.frozen == root.bundles.frozen
    && post.bundles.comments == root.bundles.comments + [post.comment]
  }

  lemma SoundEndingIsOrdered(end: Package, post: Package, rules: Rules)
    requires IsSoundPackage(post, rules) && IsMerged(end, post)
    ensures IsOrderedEnding(post.root, end.published.value, post.published.value)
  {
    PublicationInOrder(post.root, post.published.value);
    PublishedIsOrdered(post.phase, rules, post.root, post.published.value);
    SoundMergeIsOrdered(post.published.value.merge.value, post.published.value.cutoff);
  }

  /**
   * The time line goes on to the merge: after the window, with every post-merge check between the merge and
   * the last cutoff, and every accepted residual still valid then.
   */
  lemma MergeIsOrdered(packages: seq<Package>, rules: Rules)
    requires IsSoundSequence(packages, rules) && |packages| == 3
    ensures packages[1].published.Some? && packages[2].published.Some? && packages[2].published.value.merge.Some?
    ensures IsOrderedEnding(packages[0].root, packages[1].published.value, packages[2].published.value)
  {
    assert SoundIn(rules)(packages[2]);
    SoundEndingIsOrdered(packages[1], packages[2], rules);
  }

  /** More than ten minutes lie between the last change of the attestation and the merge. */
  lemma MergeWaitsForTheWindow(packages: seq<Package>, rules: Rules)
    requires IsSoundSequence(packages, rules) && |packages| == 3
    ensures packages[0].published.Some? && packages[2].published.Some? && packages[2].published.value.merge.Some?
    ensures
      var updated := packages[0].published.value.comment.updatedAt;
      var merged := packages[2].published.value.merge.value.mergedAt;
      IsTimestamp(updated) && IsTimestamp(merged) && InstantOf(updated) + WINDOW_SECONDS < InstantOf(merged)
  {
    WindowIsOrdered(packages, rules);
    MergeIsOrdered(packages, rules);
  }
}
