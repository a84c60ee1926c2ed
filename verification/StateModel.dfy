/** Durable record types of `crates/qingyin-state/src/model.rs`, with `u64` written out. */
module StateModel {
  import opened Wrappers
  import opened SessionLifecycle

  const U64_MAX: nat := 0xFFFF_FFFF_FFFF_FFFF

  type U64 = n: nat | n <= U64_MAX

  function CheckedAdd(a: U64, b: nat): (r: Option<U64>)
    ensures r.Some? <==> a + b <= U64_MAX
    ensures r.Some? ==> r.value == a + b
  {
    if a + b <= U64_MAX then Some(a + b) else None
  }

  datatype StateEntity = TransactionEntity | SessionEntity | ReservationEntity | OutboxEntity | TtlValueEntity

  datatype StateError =
    | Conflict(entity: StateEntity)
    | NotFound(entity: StateEntity)
    | InvalidTransition(from: SessionState, to: SessionState)
    | InvalidArgument(argument: string)
    | TransactionFinalized

  datatype MutationOutcome = Applied | Unchanged

  datatype TenantScope = TenantScope(
    organizationId: string,
    workspaceId: string,
    projectId: string,
    environmentId: string)

  datatype SessionReferences = SessionReferences(
    routeSnapshotId: string,
    policySnapshotId: string,
    capacitySnapshotId: string,
    providerSnapshotId: string)

  datatype SessionRecord = SessionRecord(
    scope: TenantScope,
    sessionId: string,
    traceId: string,
    state: SessionState,
    references: SessionReferences,
    revision: U64,
    createdAtMs: U64,
    updatedAtMs: U64)
  {
    function Transitioned(next: SessionState, atMs: U64): Result<SessionRecord, StateError> {
      if state == next then
        Ok(this)
      else if !state.CanTransitionTo(next) then
        Err(InvalidTransition(state, next))
      else if atMs < updatedAtMs then
        Err(InvalidArgument("updated_at_ms"))
      else
        match CheckedAdd(revision, 1)
        case None => Err(Conflict(SessionEntity))
        case Some(bumped) => Ok(this.(state := next, revision := bumped, updatedAtMs := atMs))
    }

    /** The fields that no transition may change. */
    predicate SameIdentity(other: SessionRecord) {
      && scope == other.scope
      && sessionId == other.sessionId
      && traceId == other.traceId
      && references == other.references
      && createdAtMs == other.createdAtMs
    }
  }

  datatype ReservationRecord = ReservationRecord(
    scope: TenantScope,
    reservationId: string,
    sessionId: string,
    resource: string,
    quantity: U64,
    createdAt: U64,
    expiresAt: U64)

  datatype OutboxRecord = OutboxRecord(
    scope: TenantScope,
    outboxId: string,
    aggregateId: string,
    topic: string,
    sourceSequence: U64,
    occurredAtMs: U64,
    payload: seq<Byte>)

  datatype OutboxEntry = OutboxEntry(record: OutboxRecord, acknowledgedAtMs: Option<U64>) {
    predicate IsPending() {
      acknowledgedAtMs.None?
    }

    /** The entry after an acknowledgement, and whether this call was the one that set the time. */
    function Acknowledged(atMs: U64): Result<(OutboxEntry, MutationOutcome), StateError> {
      if acknowledgedAtMs.Some? then
        Ok((this, Unchanged))
      else if atMs < record.occurredAtMs then
        Err(InvalidArgument("outbox_acknowledged_at_ms"))
      else
        Ok((this.(acknowledgedAtMs := Some(atMs)), Applied))
    }
  }
}
