# QingYin: verified models of its state stores, session tickets and evidence validator

QingYin is a voice gateway. This project models four of its parts in Dafny and proves what they are for.

1. **Snapshot transactions** (`DurableStore`, `SerialEquivalence`, `TransactionEnd`, `StoreHistory`,
   `SessionHistory`, `SessionLifecycle`, `OutboxDelivery`, `TenantIsolation`, on `StateModel`). Any number of
   transactions copy one shared snapshot, change their copy, and commit by comparing a generation counter. The
   classes `InMemoryStateStore` and `InMemoryTransaction` have the program's fields and methods; each method is
   proved to do exactly what a function on values says, and states its reply and its new fields case by case. The
   theorems quantify over every sequence of begins, operations, commits and rollbacks of any number of
   transactions: the run is equivalent to running the committed transactions one after another; sessions follow the
   state machine; the outbox is conserved and delivered once; tenants do not see each other.
2. **Single-use tickets over a store with lazy expiry** (`TtlStore`, `TtlHistory`, `TtlRefinement`, `Base64Url`,
   `TicketModel`, `TicketService`, `TicketProtocol`, `TicketGuarantees`). A run of the store is the sequence of
   its locked sections, each with the clock sample its caller took *before* it got the lock, in any order.
   `TicketProtocol` adds the callers: issuers, consumers, revokers and arbitrary other calls, interleaved with
   each other and with clock advances between a sample and its section. `Service` is the same code straight
   through, proved to be that machine run without interleaving (`RunsAlone`).
3. **Canonical JSON and stable order** (`Ordering`, `UnicodeText`, `CanonicalJson`, `CanonicalForm`, `JsonParser`,
   `JsonGrammar`, `JsonReading`, `JsonExactness`, `CanonicalRoundTrip`, `CanonicalEquality`, `CanonicalShape`,
   `StableOrder`, `StableOrderLaws`). The encoding that the governance validator uses as its notion of equality
   decides equality of JSON values, reads back under the program's own strict parser, is the shortest text that
   does, and makes array views independent of provider order. The parser reads exactly what a grammar of syntax
   trees writes. Unicode normalisation is an arbitrary function.
4. **Bounded parsing and time lines** (`ZipLayout`, `ZipPreflight`, `UtcTimestamp`, `FindingLedger`,
   `EvidenceTimeline`, `EvidenceExample`, `FrozenText`, `FrozenTextLaws`). Loops over bytes, findings and lines
   against declarative specifications, down to the bytes of an archive, the calendar and the table of line
   boundaries, and the order of events that an accepted evidence sequence establishes although some checks compare
   strings and others parsed times.

`Wrappers` holds bytes, options and results. To verify the whole project, use `dafny verify dfyconfig.toml`.

Where a property one would expect of the code does not hold for all inputs, the code is kept, a lemma gives an
input, and another says exactly when it does hold:

- `TtlRefinement.OutOfOrderSamplesDiffer`: clock samples out of lock order make the lazy store find an entry that
  an eager one has dropped. An eager store gives every reply of a run if and only if no call that gets to the lock
  uses an entry after an event, since the entry was stored, came with a sample at or past its expiry
  (`RefinesUnlessUsedLate`). Samples in order are never late (`LazyRefinesEager`).
- `StableOrderLaws.TrueAndOneAreConfused`: `require_stable_array_order` compares with Python's `==`, for which
  `True` is `1`, so two orders can be accepted; exactly one is if and only if no two items of the view are
  confused that way (`OneOrderIsRequired`). Keys made of integer or string members rule it out
  (`IntegerFieldRespectsPython`, `StringFieldRespectsPython`, `RespectfulIdentity`).
- `FrozenTextLaws.OtherBreaksAreConfused`: blanking a mutable line drops a boundary other than the newline, so
  texts with different numbers of lines can have one normal form. This is so exactly for texts with a *glued*
  line, a mutable line without a final newline in front of an empty line (`GluedIsAmbiguous`). For all accepted
  texts, equal normal forms together with glue in the same places are the same frozen text, and nothing less is
  (`EqualNormalFormsAgree`). That the text ends alike is part of it: a mutable last line ends with a newline in
  both texts or in neither.

## Model

| member | source | states |
|---|---|---|
| SessionLifecycle.CreatedToCompleted | crates/qingyin-types/src/lib.rs:231-261 | A path of the state machine from Created to Completed passes all six intermediate states in order, its length being fixed by the number of Active-Retrying excursions. |
| SessionLifecycle.CompletionPathIsPath | crates/qingyin-types/src/lib.rs:241-261 | Conversely every such path, for any number of excursions, is allowed. |
| SessionLifecycle.PathsFromCreated | crates/qingyin-types/src/lib.rs:231-261 | The paths of a new session are exactly: the opening and then Active and Retrying in turn, left off or interrupted by Cancelled, Expired or Failed at any state, or going from Active to Draining and there to Completed or interrupted. |
| DurableStore.InMemoryStateStore.Begin | crates/qingyin-testkit/src/durable.rs:43-52 | A new transaction holds a private copy of the shared data and its generation. |
| DurableStore.InMemoryTransaction.InsertSession | crates/qingyin-testkit/src/durable.rs:88-101 | The transaction's whole new state and the reply: applied, unchanged for the same record, conflict otherwise. |
| DurableStore.InMemoryTransaction.TransitionSession | crates/qingyin-testkit/src/durable.rs:103-131 | New state and reply of a compare-and-set on the revision, case by case: same-state retries first, then the revision, the allowed edges, the update time and the last revision. |
| DurableStore.InMemoryTransaction.InsertReservation | crates/qingyin-testkit/src/durable.rs:146-162 | The transaction's whole new state and the reply of an idempotent insert. |
| DurableStore.InMemoryTransaction.AppendOutbox | crates/qingyin-testkit/src/durable.rs:164-180 | Appends record and order entry together, once per key. |
| DurableStore.InMemoryTransaction.PendingOutbox | crates/qingyin-testkit/src/durable.rs:195-215 | The entries at the first pending positions of the append order, all of them up to a position that is the end of the order unless the limit was reached; the transaction itself is left as it was. |
| DurableStore.FirstPending | crates/qingyin-testkit/src/durable.rs:205-214 | The scan of the order with its early stop returns the entries at exactly those positions. |
| DurableStore.InMemoryTransaction.AcknowledgeOutbox | crates/qingyin-testkit/src/durable.rs:217-234 | New state and reply; only an applied acknowledgement makes the transaction dirty. |
| DurableStore.InMemoryTransaction.Commit | crates/qingyin-testkit/src/durable.rs:236-253 | Reply, shared data and transaction for a finalized, clean, current and stale or exhausted transaction, clean ones at any generation. |
| DurableStore.InMemoryTransaction.Rollback | crates/qingyin-testkit/src/durable.rs:255-259 | Succeeds once, finalizes, and leaves everything else alone. |
| SerialEquivalence.EveryRunIsSerial | crates/qingyin-testkit/src/durable.rs:43-259 | For every interleaving, the shared data is what the committed dirty transactions leave when run alone in commit order from the empty store, the generation counts them, and every transaction got the replies it would have got alone from its begin. |
| SerialEquivalence.CallerIsSerial | crates/qingyin-testkit/src/durable.rs:64-234 | One operation keeps the calling transaction equal to its serial run. |
| SerialEquivalence.CommitPublishes | crates/qingyin-testkit/src/durable.rs:236-253 | A successful commit puts the serial store where the program's shared data is. |
| TransactionEnd.CommitIsDecided | crates/qingyin-testkit/src/durable.rs:236-253 | In every run, a clean commit succeeds at any generation and publishes nothing; a dirty one succeeds exactly if as many writers have committed as when it began and a generation is left, and then publishes its private data; otherwise it is a transaction conflict. It finishes the transaction either way. |
| TransactionEnd.RollbackIsDecided | crates/qingyin-testkit/src/durable.rs:255-259 | In every run, a rollback succeeds, publishes nothing and finishes the transaction. |
| TransactionEnd.FinishedForever | crates/qingyin-testkit/src/durable.rs:64-71 | A finished transaction stays as it is in any continuation and refuses every action without effect. |
| StoreHistory.PerformEvolves | crates/qingyin-testkit/src/durable.rs:88-234 | Every operation keeps the store well formed and only moves it forward; what it reports as a write is a difference that cannot be undone. |
| StoreHistory.DirtyMeansDifferent | crates/qingyin-testkit/src/durable.rs:88-234 | A transaction is dirty exactly when its working data differs from its snapshot. |
| StoreHistory.SharedEvolves | crates/qingyin-testkit/src/durable.rs:236-253 | In every run the shared data is well formed, and any continuation only moves it forward. |
| StoreHistory.WorkingEvolves | crates/qingyin-testkit/src/durable.rs:43-73 | The same for the private data of every open transaction, relative to the snapshot it began from. |
| StoreHistory.TerminalIsFinal | crates/qingyin-state/src/model.rs:199-226 | A record that descends from a terminal one is that record. |
| StoreHistory.TransitionLineage | crates/qingyin-state/src/model.rs:199-226 | A transition to another state is exactly one allowed step, to the state and time it names, with the revision up by one and identity and references kept; to the same state it changes nothing. |
| StoreHistory.TraceCounts | crates/qingyin-state/src/model.rs:199-226 | Along any number of such steps the states are a path, the revision counts the steps, and the update time does not go back. |
| StoreHistory.LaterWorkEvolves | crates/qingyin-testkit/src/durable.rs:43-52 | A transaction that begins after a run, while it is open, works on data that continues what was shared at the end of the run. |
| SessionHistory.EverySessionHasALineage | crates/qingyin-testkit/src/durable.rs:88-131 | In every run the records a key holds, as the committed transactions are replayed operation by operation, are one that an insert put there and then one allowed step after another, each asked for by a transition call of those transactions; the shared data holds the last. So the states are a path, the revision is the inserted one plus the steps, and identity and time order are kept. |
| SessionHistory.EveryWorkingSessionHasALineage | crates/qingyin-testkit/src/durable.rs:43-131 | The same for what an open transaction has seen of a key. |
| SessionHistory.TraceGrows | crates/qingyin-testkit/src/durable.rs:236-253 | A continuation of a run only adds to the records a key has held. |
| SessionHistory.CompletedSession | crates/qingyin-types/src/lib.rs:241-261 | A session that starts as Created at revision 0 and is Completed after its steps has gone through exactly the six intermediate states in order with k excursions, k being the number of its Retrying records, and is at revision 7 + 2k. |
| SessionHistory.CompletedSessionOfRun | crates/qingyin-testkit/src/durable.rs:103-131 | The same for the records that a completed session of any run has in fact been. |
| SessionHistory.SessionOfRunIsOnCourse | crates/qingyin-testkit/src/durable.rs:103-131 | The states that a session of any run has been in are one of the courses of the state machine. |
| SessionHistory.TerminalForever | crates/qingyin-testkit/src/durable.rs:103-131 | A terminal session is never changed again by any continuation of the run. |
| SessionHistory.RevisionIsSpentOnce | crates/qingyin-testkit/src/durable.rs:118-131 | A transition that was applied is rejected, or answered as a retry, in every store its result evolves into. |
| SessionHistory.InsertedOnce | crates/qingyin-testkit/src/durable.rs:88-101 | A second insert under a key changes nothing in any store that the first one's result evolves into. |
| SessionHistory.ReservedOnce | crates/qingyin-testkit/src/durable.rs:133-162 | Likewise for a reservation, which is found unchanged. |
| SessionHistory.RevisionStaysSpent | crates/qingyin-testkit/src/durable.rs:118-131 | In every run, a transaction begun later cannot change a shared session by naming a revision it has left behind. |
| SessionHistory.SessionStaysInserted | crates/qingyin-testkit/src/durable.rs:75-101 | In every run, a transaction begun later finds a shared session as a descendant of itself, and a second insert under its key changes nothing. |
| SessionHistory.ReservationStays | crates/qingyin-testkit/src/durable.rs:133-162 | In every run, a transaction begun later finds a shared reservation unchanged, and refuses any other under its key. |
| OutboxDelivery.PendingByPosition | crates/qingyin-testkit/src/durable.rs:195-215 | What is pending is exactly the unacknowledged entries of the tenant, each at its place in append order. |
| OutboxDelivery.BatchIsPrefix | crates/qingyin-testkit/src/durable.rs:195-215 | A batch is the first `limit` pending entries, or all if there are fewer. |
| OutboxDelivery.AcknowledgeBatch | crates/qingyin-testkit/src/durable.rs:217-234 | Acknowledging a returned batch leaves exactly the rest pending, in order. |
| OutboxDelivery.Drain | crates/qingyin-testkit/src/durable.rs:195-234 | Fetching and acknowledging in turn ends, and its batches together are every pending entry once, in order. |
| OutboxDelivery.AppendedOnce | crates/qingyin-testkit/src/durable.rs:164-180 | In any store that an append's result evolves into, the same record is unchanged and another under its key a conflict. |
| OutboxDelivery.AcknowledgedOnce | crates/qingyin-state/src/model.rs:498-507 | In any store that an acknowledged entry's store evolves into, the first time stands. |
| OutboxDelivery.AppendStays | crates/qingyin-testkit/src/durable.rs:164-180 | In every run, a transaction begun later answers the append of a shared record with unchanged and of another under its key with a conflict. |
| OutboxDelivery.AcknowledgementStays | crates/qingyin-state/src/model.rs:498-507 | In every run, a transaction begun later finds a shared acknowledgement time and cannot move it. |
| OutboxDelivery.OutboxConserved | crates/qingyin-testkit/src/durable.rs:164-234 | In every run the order has no duplicates and is the key set of the outbox, each key matches its record, and a continuation only appends. |
| TenantIsolation.Noninterference | crates/qingyin-testkit/src/durable.rs:75-234 | Deleting all other tenants' operations from any sequence changes neither a tenant's replies nor its part of the data. |
| TenantIsolation.OthersAreInvisible | crates/qingyin-testkit/src/durable.rs:75-234 | An operation of another tenant leaves a tenant's part of the data alone. |
| TenantIsolation.OwnViewDecides | crates/qingyin-testkit/src/durable.rs:75-234 | An operation's reply and its effect on its tenant depend on that tenant's part only. |
| TtlStore.VirtualClock.Advance | crates/qingyin-testkit/src/clock.rs:22-26 | Moves the clock by whole milliseconds, or fails for less than one or past the end and leaves it; never goes back. |
| TtlStore.InMemoryTtlStore.Purge | crates/qingyin-testkit/src/ttl.rs:56-64 | Drops the key exactly when the sample is at or past its expiry. |
| TtlStore.InMemoryTtlStore.NextRevision | crates/qingyin-testkit/src/ttl.rs:66-72 | Bumps the counter by one, or fails when it is used up. |
| TtlStore.InMemoryTtlStore.PutIfAbsent | crates/qingyin-testkit/src/ttl.rs:80-103 | New data and reply by whether the key is live, validation before the clock sample and exhausted revisions included. |
| TtlStore.InMemoryTtlStore.GetEntry | crates/qingyin-testkit/src/ttl.rs:105-111 | New data and reply, removal on read included. |
| TtlStore.InMemoryTtlStore.CompareAndExtend | crates/qingyin-testkit/src/ttl.rs:113-145 | New data and reply: the value under a new revision and expiry, or missing, or a mismatch. |
| TtlStore.InMemoryTtlStore.CompareAndTake | crates/qingyin-testkit/src/ttl.rs:147-170 | New data and reply: the value of a live entry of that revision, which is dropped, or missing, or a mismatch. |
| TtlStore.InMemoryTtlStore.RemoveEntry | crates/qingyin-testkit/src/ttl.rs:172-182 | New data and reply; removing an expired entry counts as unchanged. |
| TtlHistory.ExecuteByLiveness | crates/qingyin-testkit/src/ttl.rs:80-182 | Every operation behaves as if entries that its sample finds expired were not there. |
| TtlHistory.RevisionsNameValues | crates/qingyin-testkit/src/ttl.rs:66-72 | Across all keys and tenants each revision is given out once, and every stored entry is exactly the one its revision was created with. |
| TtlHistory.EveryBirthHasAPut | crates/qingyin-testkit/src/ttl.rs:80-145 | However often an entry was extended, its value is the one an earlier put on its key inserted. |
| TtlHistory.UseIsLive | crates/qingyin-testkit/src/ttl.rs:105-170 | A found, extended or taken entry is stored at that moment, its sample is strictly below its expiry, and what is returned is what the revision was created with. |
| TtlHistory.NoResurrection | crates/qingyin-testkit/src/ttl.rs:56-72 | Once any operation has reported a revision absent, no later one finds, extends or takes it, whatever the order of clock samples. |
| TtlHistory.TakenOnce | crates/qingyin-testkit/src/ttl.rs:147-170 | Everything that goes back to one put is taken at most once, extended or not. |
| TtlHistory.RejectionHasACause | crates/qingyin-testkit/src/ttl.rs:147-170 | A take of a revision found before fails only if some operation in between took, removed or extended it or ran on its key with a sample at or past its expiry, or its own sample was. |
| TtlHistory.EndedIsRejected | crates/qingyin-testkit/src/ttl.rs:147-182 | Conversely each such operation ends the revision for good. |
| TtlRefinement.RefinesUnlessUsedLate | crates/qingyin-testkit/src/ttl.rs:56-182 | For any order of samples, an eager store gives every reply of the run if and only if no call uses an entry that an earlier sample had found expired. |
| TtlRefinement.LazyRefinesEager | crates/qingyin-testkit/src/ttl.rs:56-64 | With samples nondecreasing in lock order that is so, and the eager store holds exactly the unexpired entries after each event. |
| TtlRefinement.OutOfOrderSamplesDiffer | crates/qingyin-testkit/src/ttl.rs:105-111 | A run with samples out of order whose replies no eager store gives. |
| Base64Url.DecodeEncode | crates/qingyin-security/src/principal.rs:54-64 | Decoding undoes encoding, whatever the decoder does with left-over bits. |
| Base64Url.StrictDecodeIsExact | crates/qingyin-security/src/ticket/model.rs:101-116 | A strict decoder accepts exactly the encodings. |
| Base64Url.LeftOverBitsDecideNothing | crates/qingyin-security/src/ticket/model.rs:57-63 | A lenient decoder reads several texts as one byte, a strict one only the text whose left-over bits are zero. |
| Base64Url.GroupsAreNumbers | crates/qingyin-security/src/principal.rs:54-64 | Three bytes and their four symbols are one 24-bit number, high digits first, and left-over bytes are padded with zero bits. |
| Base64Url.GroupsComeInOrder | crates/qingyin-security/src/principal.rs:54-64 | The text of a byte string is the texts of its groups one after another. |
| TicketModel.TransportIsExact | crates/qingyin-security/src/ticket/model.rs:101-120 | Accepted transport texts are exactly the encodings of 32-byte values, one each, for either treatment of left-over bits; entropy never fails. |
| TicketModel.MatchesOnlyItself | crates/qingyin-security/src/ticket/service.rs:166-222 | What was stored for a binding matches that binding and no other. |
| TicketModel.MatchesStrictly | crates/qingyin-security/src/ticket/service.rs:196-222 | With a strict decoder, of all stored tickets of this version exactly the unused one written for the binding matches it. |
| TicketModel.BindingsStayInTenant | crates/qingyin-security/src/ticket/model.rs:147-163 | A binding is made exactly for a principal with the scope and its own tenant, for the session, channel and client asked for, and carries that principal's digest; the missing scope is reported first. |
| TicketModel.PolicyIsWholeMillis | crates/qingyin-security/src/ticket/model.rs:203-209 | The accepted lifetimes are exactly the whole milliseconds from one second to five minutes. |
| TicketService.Service.IssueTicket | crates/qingyin-security/src/ticket/service.rs:41-88 | The retry loop is the protocol's `issue` run with nobody in between. |
| TicketService.Service.ConsumeTicket | crates/qingyin-security/src/ticket/service.rs:94-132 | Likewise for `consume`; it redeems and removes exactly a live entry that is accepted for the binding, and leaves a live one that is not. |
| TicketService.Service.RevokeTicket | crates/qingyin-security/src/ticket/service.rs:135-143 | Likewise for `revoke`; the key is gone, nothing else changes, and the answer is whether it was live. |
| TicketService.IssueAlone | crates/qingyin-security/src/ticket/service.rs:41-88 | Without interleaving, `issue` stores and returns the first of four drawn secrets whose key is not live, under the next revision and the exact expiry; each way to fail has its error and leaves everything live as it was. |
| TicketProtocol.EveryWorldIsSound | crates/qingyin-security/src/ticket/service.rs:41-143 | In every reachable world the log is a run of the store, each call in it is the one its thread had come to, and the replies explain where each thread stands. |
| TicketProtocol.SamplesAreReadings | crates/qingyin-security/src/ticket/service.rs:41-143 | Every clock sample, of an event or of a call on its way to the lock, was read off the clock by its own thread after that thread's previous event. |
| TicketProtocol.TimeIsMonotone | crates/qingyin-testkit/src/clock.rs:22-45 | Along the moves of any run the clock does not go back. |
| TicketProtocol.RunsAlone | crates/qingyin-security/src/ticket/service.rs:41-143 | In any world, a thread that always gets the lock at once ends where the same call run alone ends, and no other thread is touched. |
| TicketProtocol.MovedIsReached | crates/qingyin-security/src/ticket/service.rs:41-143 | Worlds that further moves lead to from a reachable world are reachable. |
| TicketGuarantees.IssueArithmetic | crates/qingyin-security/src/ticket/service.rs:57-81 | The read-back succeeds exactly when it finds the inserted revision; then issue time is the clock sample of its own put, expiry that plus the lifetime in whole milliseconds, and nothing underflows. |
| TicketGuarantees.IssuedTicketsWereRead | crates/qingyin-security/src/ticket/service.rs:41-88 | Every issued ticket came from such a put and read. |
| TicketGuarantees.CollisionChangesNothing | crates/qingyin-security/src/ticket/service.rs:83-87 | An `issue` that ends in a collision left every entry and the revision counter as they were at each of its events. |
| TicketGuarantees.CollisionAfterFourAttempts | crates/qingyin-security/src/ticket/service.rs:45-87 | Unless the entropy source itself reports one, a collision is reported after exactly four calls, none of which changed anything. |
| TicketGuarantees.PutsFollowDraws | crates/qingyin-security/src/ticket/service.rs:45-56 | Whatever runs in between, each put of an issuer is for its binding and the secret drawn for that very attempt. |
| TicketGuarantees.RefusedPutIsDenied | crates/qingyin-security/src/ticket/service.rs:57-87 | A refused put ends the call, as an encoding failure if the expiry cannot be computed and as unavailable state if revisions are used up. |
| TicketGuarantees.AcceptedIsWritten | crates/qingyin-security/src/ticket/service.rs:186-222 | With a strict decoder, a value is accepted for a binding exactly if it is read as what `issue` writes for it; the error tells unreadable and other versions from mismatches. |
| TicketGuarantees.ConsumeIsDecided | crates/qingyin-security/src/ticket/service.rs:101-131 | A consumer that read a matching entry is redeemed exactly when nobody ended that revision before its take and its take's sample is below the expiry; the second decoding and matching never fails. |
| TicketGuarantees.FirstTakeWins | crates/qingyin-security/src/ticket/service.rs:113-131 | Of two consumers that found the same revision the first to take it wins, if in time and not anticipated, and the other is rejected. |
| TicketGuarantees.RedeemedTicketsWereTaken | crates/qingyin-security/src/ticket/service.rs:94-132 | Every redemption came from a read of a matching entry and a take of its revision, in time. |
| TicketGuarantees.SingleUse | crates/qingyin-security/src/ticket/service.rs:94-132 | What one put stored is redeemed by at most one call, over all interleavings. |
| TicketGuarantees.RevokeIsDecided | crates/qingyin-security/src/ticket/service.rs:135-143 | Whatever runs in between, a finished revoke has run one operation, the removal of its key, and reports exactly whether the key was live at its sample; the key is empty afterwards. |
| TicketGuarantees.RevokedIsGone | crates/qingyin-security/src/ticket/service.rs:135-143 | No revision that the key had before a revoke is found, extended or taken after it. |
| TicketGuarantees.RevokedIsNotRedeemed | crates/qingyin-security/src/ticket/service.rs:94-143 | A redeemed ticket whose digest was revoked was redeemed before the revoke or put after it. |
| TicketGuarantees.RedeemedMeansIssued | crates/qingyin-security/src/ticket/service.rs:94-132 | If only `issue` puts tickets, a redeemed ticket was issued earlier under the same digest for exactly the expected binding, and unless somebody extends tickets its expiry is the issuer's. |
| TicketGuarantees.IssuedTicketIsConsumedOnce | crates/qingyin-security/src/ticket/service.rs:41-132 | With nobody else at the store, an issued ticket is consumed once by its binding before its expiry; another binding of the tenant is rejected and leaves it in place. |
| UnicodeText.Utf8IsExact | scripts/validate_governance_state.py:920-936 | Strict UTF-8 decoding accepts exactly the encodings of surrogate-free texts. |
| UnicodeText.SortKeyOrder | scripts/validate_governance_state.py:859-860 | Sort keys compare as UTF-16 code units: the units of one text begin those of the other, or the first units that differ are in order. |
| UnicodeText.Utf16IsInjective | scripts/validate_governance_state.py:859-860 | Different surrogate-free texts have different sort keys. |
| CanonicalForm.CanonicalIsRendered | scripts/validate_governance_state.py:920-936 | The encoding succeeds exactly on acceptable values and writes the compact text of the value with sorted members; `CanonicalIsSortedText` says what that is. |
| CanonicalShape.CanonicalIsSortedText | scripts/validate_governance_state.py:920-936 | The bytes are the compact text of the one value that is the same and has its members in UTF-16 order of their keys, shorter keys before their continuations, at every depth. |
| CanonicalShape.CharIsShortest | scripts/validate_governance_state.py:928-936 | Every character is written in the shortest way JSON has, with lower-case digits where it needs an escape by number. |
| CanonicalShape.CanonicalIsShortest | scripts/validate_governance_state.py:920-936 | No text that reads as the same value, in whatever order of members, is shorter than the canonical one. |
| CanonicalShape.ReadIsEncodable | scripts/validate_governance_state.py:844-976 | What the strict parser reads can be encoded exactly if its strings and keys are normalised and free of surrogates. |
| JsonParser.StrictObject | scripts/validate_governance_state.py:939-948 | The loop keeps all pairs in order if no two keys are equal or normalise alike, and fails otherwise. |
| JsonExactness.ParseIsExact | scripts/validate_governance_state.py:969-976 | The parser returns a value exactly if the text writes it by the grammar of RFC 8259, with any white space around tokens, any escapes and nothing after it, and objects and numbers pass the hooks. |
| JsonReading.NumeralsAreDigits | scripts/validate_governance_state.py:951-966 | The numerals of natural numbers are the digit sequences without leading zeros. |
| JsonParser.ReadIsGood | scripts/validate_governance_state.py:939-976 | Whatever text is read, its objects have distinct keys and all its numbers are safe integers. |
| CanonicalRoundTrip.ValueParses | scripts/validate_governance_state.py:969-976 | Reading compact text gives the value back and stops at its end, whatever delimiter follows. |
| CanonicalRoundTrip.IntegerParses | scripts/validate_governance_state.py:951-966 | Every safe integer that is printed is read back, so the bound of sixteen digits excludes none. |
| CanonicalEquality.CanonicalDecidesEquality | scripts/validate_governance_state.py:844-936 | Encoded bytes are equal exactly for the same JSON value with objects compared as maps; insertion order never matters and booleans stay apart from numbers. |
| CanonicalEquality.CanonicalRoundTrips | scripts/validate_governance_state.py:920-976 | Canonical bytes decode and parse to the same value with sorted members, which encodes to the same bytes. |
| StableOrder.DeriveStableArrayView | scripts/validate_governance_state.py:879-905 | The loop accepts exactly the arrays whose items have keys, encode, and have distinct identities, and returns them sorted by key and canonical bytes. |
| StableOrder.ComponentsByTag | scripts/validate_governance_state.py:863-876 | Key components compare as tagged pairs: integers before strings before whole items, integers ascending, strings and items by their first different byte. |
| StableOrderLaws.ViewIsSortedPermutation | scripts/validate_governance_state.py:879-905 | The view is a sorted permutation of the input. |
| StableOrderLaws.IntegerViewAscends | scripts/validate_governance_state.py:867-905 | The items of a view keyed by an integer member have strictly ascending integers. |
| StableOrderLaws.StringViewAscends | scripts/validate_governance_state.py:873-905 | The items of a view keyed by a string member are in strict order of UTF-16 code units. |
| StableOrderLaws.ViewIsPermutationInvariant | scripts/validate_governance_state.py:879-905 | Every order of the same items is accepted or refused alike and has the same view. |
| StableOrderLaws.OneOrderIsRequired | scripts/validate_governance_state.py:908-917 | One order is accepted if and only if Python's equality confuses no two items of the view. |
| StableOrderLaws.RespectfulIdentity | scripts/validate_governance_state.py:908-917 | With an identity that sees what Python's equality sees, one order is accepted. |
| StableOrderLaws.IntegerFieldRespectsPython | scripts/validate_governance_state.py:867-870 | An identity made of an integer member is such an identity. |
| StableOrderLaws.StringFieldRespectsPython | scripts/validate_governance_state.py:873-876 | And so is one made of a string member. |
| StableOrderLaws.IntegerKeysRequireOneOrder | scripts/validate_governance_state.py:2440-2446 | For an integer member as key, as the validator requires an order, every accepted array has one order only. |
| StableOrderLaws.TrueAndOneAreConfused | scripts/validate_governance_state.py:908-917 | A key and an array for which more than one order is accepted. |
| ZipPreflight.TrailerCandidates | scripts/validate_governance_state.py:3569-3578 | The bounded search finds every trailer of the whole data that ends at its end. |
| ZipPreflight.WalkDirectory | scripts/validate_governance_state.py:3608-3628 | The loop decides whether exactly the announced number of records tile the directory. |
| ZipPreflight.Preflight | scripts/validate_governance_state.py:3558-3628 | Accepts exactly the data that are written, byte by byte and little-endian, from some content, a list of at most 1000 headers and a comment, without ZIP64, and hold no second end record at their end. |
| ZipPreflight.ArchivesAreWritten | scripts/validate_governance_state.py:3581-3628 | The data with one plain trailer whose directory splits into the announced records are the data written that way. |
| ZipPreflight.TilingIsUnique | scripts/validate_governance_state.py:3608-3624 | A directory splits into records in one way only. |
| UtcTimestamp.TimestampsAreInstants | scripts/validate_governance_state.py:997-1002 | The accepted strings are exactly the printed calendar instants of the years 2000 to 2099. |
| UtcTimestamp.OrdersAgree | scripts/validate_governance_state.py:997-1002 | String order, field order and order in seconds agree on accepted timestamps, leap years included. |
| UtcTimestamp.InstantsCountSeconds | scripts/validate_governance_state.py:997-1002 | Each tick of the calendar clock, over the ends of minutes, months and years, is one second more. |
| UtcTimestamp.DaysInClosedForm | scripts/validate_governance_state.py:997-1002 | The days of each date are those of the Gregorian calendar in closed form. |
| FindingLedger.CheckFinding | scripts/validate_governance_state.py:2864-3050 | A finding is accepted exactly when its disposition, times and identifiers are as required. |
| FindingLedger.ValidateFindingLedger | scripts/validate_governance_state.py:2840-3062 | The loops accept exactly the ledgers whose findings are all disposed of, sorted and unique, with every fixed residual accepted or resolved and the attested lists repeated exactly. |
| FindingLedger.LedgerBySeverity | scripts/validate_governance_state.py:2840-3062 | In an accepted ledger every P0 is resolved, every P1 resolved or an expected residual accepted beyond the cutoff, every P2 resolved or deferred; identifiers are unique, no expected one is missing, and the attested residuals are exactly the unresolved P1. |
| EvidenceTimeline.WindowIsOrdered | scripts/validate_governance_state.py:3395-3430 | In every accepted window: commit, reviews, decisions, first cutoff, attestation created and updated, window start and, at least 600 seconds later, window end; one comment was appended, at the end. |
| EvidenceTimeline.MergeIsOrdered | scripts/validate_governance_state.py:3431-3450 | In every accepted sequence with a merge: window end, merge, post-merge checks, last cutoff, all before the expiry of every accepted residual. |
| EvidenceTimeline.MergeWaitsForTheWindow | scripts/validate_governance_state.py:3426-3450 | More than 600 seconds lie between the attestation's last update and the merge. |
| EvidenceTimeline.TimesAreOrder | scripts/validate_governance_state.py:1541-2502 | The checks on the times of one package, some of them on strings and some on parsed times, hold exactly if its instants are in order: commit, then start and end of each review, check and run, creation and update of each comment, cutoff. |
| EvidenceTimeline.PublicationIsDetermined | scripts/validate_governance_state.py:2669-2777 | A publication is accepted exactly if its bundles and its delta are those that the earlier bundles and one new comment by the attestor determine, made between the cutoffs. |
| EvidenceExample.SomeSequenceIsSound | scripts/validate_governance_state.py:3395-3450 | There is an accepted start/end/post sequence with accepted residuals. |
| FrozenText.NormalizeFrozen | scripts/validate_governance_state.py:743-758 | The loop accepts a text exactly when no line is ambiguous and each prefix has one line, and blanks those lines. |
| FrozenTextLaws.SplitIsExact | scripts/validate_governance_state.py:746-747 | The lines of a text are the one way to cut it after its boundaries, a carriage return and a newline being one. |
| FrozenTextLaws.EqualNormalFormsAgree | scripts/validate_governance_state.py:743-758 | For all accepted texts, whatever their line boundaries: as many lines that agree outside mutable contents, exactly if the normal forms are equal and the same lines are glued. |
| FrozenTextLaws.GluedIsAmbiguous | scripts/validate_governance_state.py:747-755 | An accepted text has a glued line exactly if its normal form is also that of an accepted text with fewer lines. |
| FrozenTextLaws.BlankingKeepsLines | scripts/validate_governance_state.py:747-755 | The normal text splits into the blanked lines exactly if every mutable line before the last ends with a newline. |
| FrozenTextLaws.OtherBreaksAreConfused | scripts/validate_governance_state.py:743-758 | Two texts, one with a vertical tab, of two lines and of one, with one normal form. |

## Left out

- Outbox entries are values in a map that the transaction replaces, where the program updates the entry through a mutable reference; nothing else can hold that reference.
- Mutex poisoning and the error it gives: a locked section is one atomic step, and clocks, stores and services never fail for that reason.
- Asynchronous scheduling beyond interleaving of whole locked sections.
- HMAC, entropy and the bytes of a stored ticket: the digest is an arbitrary function, draws are given, and writing and reading a stored ticket is an arbitrary pair, assumed to round-trip only where a lemma says so.
- Ticket keys and tenant identifiers are not checked for length and character set, which base64url digests always pass.
- Principal kinds, roles, credentials and scopes other than the one a ticket needs; error categories; zeroizing, redaction and constant-time comparison.
- Payload limits and field validation in the constructors of session, reservation and outbox records.
- Dictionary keys that are not strings, and Python's limit on recursion depth, in the canonical encoding and the parser.
- Byte decoding errors of JSON input other than through strict UTF-8; the decoder's error messages and positions.
- Floats carry no value: the encoding and the parser refuse them all.
- EvidenceTimeline.WindowIsOrdered: keeps of each endpoint bundle only times, comments, counters and findings; shapes, digests, identities and the GitHub-review and review-thread times are single comparisons and are not modelled.
- FindingLedger.ValidateFindingLedger: leaves out per finding what `CheckFinding` leaves out.
- FindingLedger.CheckFinding: leaves out owner, scope, wording, section digests and resolution patches, which are independent guards.
- The comment of the publication is compared as a whole record; avatar addresses and the absent pin, which the program ignores, are not part of the record.
- The merge-ready mode of the sequence check, which only narrows the accepted phases; activation bindings, request bindings, live verification, GitHub requests, `git` processes, files and command lines.
- Workflow files, frozen hash tables, secret scanning, archive contents behind the preflight, and all other scripts.
- Session admission, gateway, provider crates, audio limits and wire names, which have no logic or only easy members.
