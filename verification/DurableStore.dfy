/**
 * The snapshot-transaction store of `crates/qingyin-testkit/src/durable.rs`.
 *
 * `Perform` says what one operation does to a snapshot and what it replies; `Txn` is one transaction's
 * private state. The classes below hold the same state in fields, update it in place, and every method is
 * proved to be the corresponding specification step.
 */
module DurableStore {
  import opened Wrappers
  import opened SessionLifecycle
  import opened StateModel

  datatype ScopedId = ScopedId(scope: TenantScope, id: string)

  datatype StoreData = StoreData(
    generation: U64,
    sessions: map<ScopedId, SessionRecord>,
    reservations: map<ScopedId, ReservationRecord>,
    outbox: map<ScopedId, OutboxEntry>,
    outboxOrder: seq<ScopedId>)

  const EMPTY_STORE := StoreData(0, map[], map[], map[], [])

  datatype Operation =
    | ReadSession(scope: TenantScope, id: string)
    | InsertSession(session: SessionRecord)
    | TransitionSession(scope: TenantScope, id: string, expectedRevision: U64, next: SessionState, atMs: U64)
    | ReadReservation(scope: TenantScope, id: string)
    | InsertReservation(reservation: ReservationRecord)
    | AppendOutbox(record: OutboxRecord)
    | ReadOutbox(scope: TenantScope, id: string)
    | PendingOutbox(scope: TenantScope, limit: nat)
    | AcknowledgeOutbox(scope: TenantScope, id: string, atMs: U64)
  {
    /** The tenant whose keys the operation names. */
    function Tenant(): TenantScope {
      match this
      case InsertSession(session) => session.scope
      case InsertReservation(reservation) => reservation.scope
      case AppendOutbox(record) => record.scope
      case _ => scope
    }
  }

  datatype Reply =
    | SessionFound(session: Option<SessionRecord>)
    | SessionIs(record: SessionRecord)
    | ReservationFound(reservation: Option<ReservationRecord>)
    | OutboxFound(entry: Option<OutboxEntry>)
    | Entries(entries: seq<OutboxEntry>)
    | Mutated(outcome: MutationOutcome)
    | Finished
    | Rejected(error: StateError)

  /** What one operation leaves behind, replies, and whether it marks the transaction dirty. */
  datatype Effect = Effect(data: StoreData, reply: Reply, wrote: bool)

  function SessionKey(session: SessionRecord): ScopedId {
    ScopedId(session.scope, session.sessionId)
  }

  function ReservationKey(reservation: ReservationRecord): ScopedId {
    ScopedId(reservation.scope, reservation.reservationId)
  }

  function OutboxKey(record: OutboxRecord): ScopedId {
    ScopedId(record.scope, record.outboxId)
  }

  function Lookup<V>(table: map<ScopedId, V>, key: ScopedId): Option<V> {
    if key in table then Some(table[key]) else None
  }

  predicate IsPendingIn(data: StoreData, scope: TenantScope, key: ScopedId) {
    key.scope == scope && key in data.outbox && data.outbox[key].IsPending()
  }

  /** A tenant's unacknowledged entries, in append order. */
  function PendingEntries(data: StoreData, scope: TenantScope, order: seq<ScopedId>): seq<OutboxEntry> {
    if order == [] then
      []
    else
      (if IsPendingIn(data, scope, order[0]) then [data.outbox[order[0]]] else [])
      + PendingEntries(data, scope, order[1..])
  }

  ghost predicate StrictlyIncreasing(s: seq<nat>) {
    forall i, j :: 0 <= i < j < |s| ==> s[i] < s[j]
  }

  /** `entries` are the records at exactly the pending positions of the append order, in ascending position. */
  ghost predicate TakenInOrder(
      data: StoreData, scope: TenantScope, order: seq<ScopedId>, at: seq<nat>, entries: seq<OutboxEntry>)
  {
    && StrictlyIncreasing(at)
    && |at| == |entries|
    && (forall j :: 0 <= j < |at| ==>
         at[j] < |order| && IsPendingIn(data, scope, order[at[j]]) && entries[j] == data.outbox[order[at[j]]])
    && (forall i :: 0 <= i < |order| && IsPendingIn(data, scope, order[i]) ==> i in at)
  }

  lemma {:induction false} PendingConcat(
      data: StoreData, scope: TenantScope, a: seq<ScopedId>, b: seq<ScopedId>)
    ensures PendingEntries(data, scope, a + b) == PendingEntries(data, scope, a) + PendingEntries(data, scope, b)
  {
    if a == [] {
      assert a + b == b;
    } else {
      assert (a + b)[1..] == a[1..] + b;
      PendingConcat(data, scope, a[1..], b);
    }
  }

  /**
   * The entries are those at the first pending positions of the append order: all of them up to some position,
   * which is the end of the order unless the limit was reached before.
   */
  ghost predicate AreFirstPending(data: StoreData, scope: TenantScope, limit: nat, entries: seq<OutboxEntry>) {
    && |entries| <= limit
    && exists at: seq<nat>, end: nat ::
         && end <= |data.outboxOrder|
         && TakenInOrder(data, scope, data.outboxOrder[..end], at, entries)
         && (|entries| == limit || end == |data.outboxOrder|)
  }

  function Take<T>(s: seq<T>, limit: nat): seq<T> {
    if |s| <= limit then s else s[..limit]
  }

  function Perform(data: StoreData, op: Operation): Effect {
    match op
    case ReadSession(scope, id) =>
      Effect(data, SessionFound(Lookup(data.sessions, ScopedId(scope, id))), false)
    case InsertSession(session) =>
      var key := SessionKey(session);
      if key in data.sessions then
        Effect(data,
               if data.sessions[key] == session then Mutated(Unchanged) else Rejected(Conflict(SessionEntity)),
               false)
      else
        Effect(data.(sessions := data.sessions[key := session]), Mutated(Applied), true)
    case TransitionSession(scope, id, expectedRevision, next, atMs) =>
      PerformTransition(data, ScopedId(scope, id), expectedRevision, next, atMs)
    case ReadReservation(scope, id) =>
      Effect(data, ReservationFound(Lookup(data.reservations, ScopedId(scope, id))), false)
    case InsertReservation(reservation) =>
      var key := ReservationKey(reservation);
      if key in data.reservations then
        Effect(data,
               if data.reservations[key] == reservation then Mutated(Unchanged)
               else Rejected(Conflict(ReservationEntity)),
               false)
      else
        Effect(data.(reservations := data.reservations[key := reservation]), Mutated(Applied), true)
    case AppendOutbox(record) =>
      var key := OutboxKey(record);
      if key in data.outbox then
        Effect(data,
               if data.outbox[key].record == record then Mutated(Unchanged) else Rejected(Conflict(OutboxEntity)),
               false)
      else
        Effect(data.(outbox := data.outbox[key := OutboxEntry(record, None)], outboxOrder := data.outboxOrder + [key]),
               Mutated(Applied),
               true)
    case ReadOutbox(scope, id) =>
      Effect(data, OutboxFound(Lookup(data.outbox, ScopedId(scope, id))), false)
    case PendingOutbox(scope, limit) =>
      Effect(data,
             if limit == 0 then Rejected(InvalidArgument("outbox_limit"))
             else Entries(Take(PendingEntries(data, scope, data.outboxOrder), limit)),
             false)
    case AcknowledgeOutbox(scope, id, atMs) =>
      PerformAcknowledge(data, ScopedId(scope, id), atMs)
  }

  function PerformTransition(
      data: StoreData, key: ScopedId, expectedRevision: U64, next: SessionState, atMs: U64): Effect
  {
    if key !in data.sessions then
      Effect(data, Rejected(NotFound(SessionEntity)), false)
    else
      var current := data.sessions[key];
      if current.state == next then
        Effect(data, SessionIs(current), false)
      else if current.revision != expectedRevision then
        Effect(data, Rejected(Conflict(SessionEntity)), false)
      else
        match current.Transitioned(next, atMs)
        case Err(error) => Effect(data, Rejected(error), false)
        case Ok(moved) => Effect(data.(sessions := data.sessions[key := moved]), SessionIs(moved), true)
  }

  function PerformAcknowledge(data: StoreData, key: ScopedId, atMs: U64): Effect {
    if key !in data.outbox then
      Effect(data, Rejected(NotFound(OutboxEntity)), false)
    else
      match data.outbox[key].Acknowledged(atMs)
      case Err(error) => Effect(data, Rejected(error), false)
      case Ok((entry, outcome)) =>
        Effect(data.(outbox := data.outbox[key := entry]), Mutated(outcome), outcome.Applied?)
  }

  /** One transaction: the generation it began at, its private snapshot, and its two flags. */
  datatype Txn = Txn(baseGeneration: U64, working: StoreData, dirty: bool, finalized: bool)

  function BeginTxn(shared: StoreData): Txn {
    Txn(shared.generation, shared, false, false)
  }

  function CallTxn(txn: Txn, op: Operation): (Txn, Reply) {
    if txn.finalized then
      (txn, Rejected(TransactionFinalized))
    else
      var effect := Perform(txn.working, op);
      (txn.(working := effect.data, dirty := txn.dirty || effect.wrote), effect.reply)
  }

  /** Shared data, transaction and reply after a commit; a failed commit finalizes too. */
  function CommitTxn(shared: StoreData, txn: Txn): (StoreData, Txn, Reply) {
    if txn.finalized then
      (shared, txn, Rejected(TransactionFinalized))
    else if !txn.dirty then
      (shared, txn.(finalized := true), Finished)
    else if shared.generation != txn.baseGeneration then
      (shared, txn.(finalized := true), Rejected(Conflict(TransactionEntity)))
    else
      match CheckedAdd(shared.generation, 1)
      case None => (shared, txn.(finalized := true), Rejected(Conflict(TransactionEntity)))
      case Some(next) =>
        var published := txn.working.(generation := next);
        (published, txn.(working := published, finalized := true), Finished)
  }

  function RollbackTxn(txn: Txn): (Txn, Reply) {
    if txn.finalized then (txn, Rejected(TransactionFinalized)) else (txn.(finalized := true), Finished)
  }

  /** One more key of the append order: its entry is taken exactly if it is pending. */
  lemma ScanStep(
      data: StoreData, scope: TenantScope, order: seq<ScopedId>, i: nat, at: seq<nat>, entries: seq<OutboxEntry>)
    requires i < |order| && TakenInOrder(data, scope, order[..i], at, entries)
    requires entries == PendingEntries(data, scope, order[..i])
    ensures
      if IsPendingIn(data, scope, order[i]) then
        && TakenInOrder(data, scope, order[..i + 1], at + [i], entries + [data.outbox[order[i]]])
        && entries + [data.outbox[order[i]]] == PendingEntries(data, scope, order[..i + 1])
      else
        && TakenInOrder(data, scope, order[..i + 1], at, entries)
        && entries == PendingEntries(data, scope, order[..i + 1])
  {
    var longer := order[..i + 1];
    assert longer == order[..i] + [order[i]];
    PendingConcat(data, scope, order[..i], [order[i]]);
    assert [order[i]][1..] == [];
    if IsPendingIn(data, scope, order[i]) {
      var more := at + [i];
      assert more[|at|] == i && forall j :: 0 <= j < |at| ==> more[j] == at[j];
    }
  }

  lemma ScanEnd(data: StoreData, scope: TenantScope, limit: nat, i: nat, at: seq<nat>, entries: seq<OutboxEntry>)
    requires i <= |data.outboxOrder| && TakenInOrder(data, scope, data.outboxOrder[..i], at, entries)
    requires entries == PendingEntries(data, scope, data.outboxOrder[..i])
    requires |entries| <= limit && (|entries| == limit || i == |data.outboxOrder|)
    ensures entries == Take(PendingEntries(data, scope, data.outboxOrder), limit)
    ensures AreFirstPending(data, scope, limit, entries)
  {
    var order := data.outboxOrder;
    PendingConcat(data, scope, order[..i], order[i..]);
    assert order[..i] + order[i..] == order;
  }

  /** The scan of the append order, which stops at the limit. */
  method FirstPending(data: StoreData, scope: TenantScope, limit: nat) returns (entries: seq<OutboxEntry>)
    ensures entries == Take(PendingEntries(data, scope, data.outboxOrder), limit)
    ensures AreFirstPending(data, scope, limit, entries)
  {
    entries := [];
    ghost var at: seq<nat> := [];
    var order, i := data.outboxOrder, 0;
    while i < |order| && |entries| < limit
      invariant i <= |order| && |entries| <= limit
      invariant TakenInOrder(data, scope, order[..i], at, entries)
      invariant entries == PendingEntries(data, scope, order[..i])
    {
      ScanStep(data, scope, order, i, at, entries);
      var key := order[i];
      if key.scope == scope && key in data.outbox && data.outbox[key].IsPending() {
        entries := entries + [data.outbox[key]];
        at := at + [i];
      }
      i := i + 1;
    }
    ScanEnd(data, scope, limit, i, at, entries);
  }

  /** A reply with the operation's own success value in place of the `Reply` constructor. */
  function Packed<T>(result: Result<T, StateError>, wrap: T -> Reply): Reply {
    match result
    case Ok(value) => wrap(value)
    case Err(error) => Rejected(error)
  }

  /** The shared, lock-guarded snapshot. */
  class InMemoryStateStore {
    var inner: StoreData

    constructor ()
      ensures inner == EMPTY_STORE
    {
      inner := EMPTY_STORE;
    }

    method Begin() returns (txn: InMemoryTransaction)
      ensures fresh(txn) && txn.shared == this
      ensures txn.View() == BeginTxn(inner)
    {
      txn := new InMemoryTransaction(this);
    }
  }

  class InMemoryTransaction {
    const shared: InMemoryStateStore
    const baseGeneration: U64
    var working: StoreData
    var dirty: bool
    var finalized: bool

    function View(): Txn
      reads this
    {
      Txn(baseGeneration, working, dirty, finalized)
    }

    constructor (store: InMemoryStateStore)
      ensures shared == store && View() == BeginTxn(store.inner)
    {
      var snapshot := store.inner;
      shared := store;
      baseGeneration := snapshot.generation;
      working := snapshot;
      dirty := false;
      finalized := false;
    }

    method Session(scope: TenantScope, id: string) returns (r: Result<Option<SessionRecord>, StateError>)
      modifies this
      ensures (View(), Packed(r, s => SessionFound(s))) == CallTxn(old(View()), ReadSession(scope, id))
      ensures View() == old(View())
      ensures r == if finalized then Err(TransactionFinalized) else Ok(Lookup(working.sessions, ScopedId(scope, id)))
    {
      if finalized {
        return Err(TransactionFinalized);
      }
      r := Ok(Lookup(working.sessions, ScopedId(scope, id)));
    }

    method InsertSession(record: SessionRecord) returns (r: Result<MutationOutcome, StateError>)
      modifies this
      ensures (View(), Packed(r, o => Mutated(o))) == CallTxn(old(View()), Operation.InsertSession(record))
      ensures var was, key := old(View()), SessionKey(record);
        if was.finalized then
          r == Err(TransactionFinalized) && View() == was
        else if key !in was.working.sessions then
          && r == Ok(Applied)
          && View() == was.(working := was.working.(sessions := was.working.sessions[key := record]), dirty := true)
        else
          && r == (if was.working.sessions[key] == record then Ok(Unchanged) else Err(Conflict(SessionEntity)))
          && View() == was
    {
      if finalized {
        return Err(TransactionFinalized);
      }
      var key := ScopedId(record.scope, record.sessionId);
      if key in working.sessions {
        if working.sessions[key] == record {
          return Ok(Unchanged);
        }
        return Err(Conflict(SessionEntity));
      }
      working := working.(sessions := working.sessions[key := record]);
      dirty := true;
      r := Ok(Applied);
    }

    method TransitionSession(
        scope: TenantScope, id: string, expectedRevision: U64, next: SessionState, updatedAtMs: U64)
      returns (r: Result<SessionRecord, StateError>)
      modifies this
      ensures (View(), Packed(r, s => SessionIs(s)))
           == CallTxn(old(View()), Operation.TransitionSession(scope, id, expectedRevision, next, updatedAtMs))
      ensures var was, key := old(View()), ScopedId(scope, id);
        if was.finalized then
          r == Err(TransactionFinalized) && View() == was
        else if key !in was.working.sessions then
          r == Err(NotFound(SessionEntity)) && View() == was
        else
          var current := was.working.sessions[key];
          if current.state == next then
            r == Ok(current) && View() == was
          else if current.revision != expectedRevision then
            r == Err(Conflict(SessionEntity)) && View() == was
          else if !current.state.CanTransitionTo(next) then
            r == Err(InvalidTransition(current.state, next)) && View() == was
          else if updatedAtMs < current.updatedAtMs then
            r == Err(InvalidArgument("updated_at_ms")) && View() == was
          else if current.revision == U64_MAX then
            r == Err(Conflict(SessionEntity)) && View() == was
          else
            var moved := current.(state := next, revision := current.revision + 1, updatedAtMs := updatedAtMs);
            && r == Ok(moved)
            && View() == was.(working := was.working.(sessions := was.working.sessions[key := moved]), dirty := true)
    {
      if finalized {
        return Err(TransactionFinalized);
      }
      var key := ScopedId(scope, id);
      if key !in working.sessions {
        return Err(NotFound(SessionEntity));
      }
      var current := working.sessions[key];
      if current.state == next {
        return Ok(current);
      }
      if current.revision != expectedRevision {
        return Err(Conflict(SessionEntity));
      }
      var transitioned :- current.Transitioned(next, updatedAtMs);
      working := working.(sessions := working.sessions[key := transitioned]);
      dirty := true;
      r := Ok(transitioned);
    }

    method Reservation(scope: TenantScope, id: string)
      returns (r: Result<Option<ReservationRecord>, StateError>)
      modifies this
      ensures (View(), Packed(r, s => ReservationFound(s))) == CallTxn(old(View()), ReadReservation(scope, id))
      ensures View() == old(View())
      ensures r ==
        if finalized then Err(TransactionFinalized) else Ok(Lookup(working.reservations, ScopedId(scope, id)))
    {
      if finalized {
        return Err(TransactionFinalized);
      }
      r := Ok(Lookup(working.reservations, ScopedId(scope, id)));
    }

    method InsertReservation(record: ReservationRecord) returns (r: Result<MutationOutcome, StateError>)
      modifies this
      ensures (View(), Packed(r, o => Mutated(o))) == CallTxn(old(View()), Operation.InsertReservation(record))
      ensures var was, key := old(View()), ReservationKey(record);
        if was.finalized then
          r == Err(TransactionFinalized) && View() == was
        else if key !in was.working.reservations then
          var grown := was.working.reservations[key := record];
          r == Ok(Applied) && View() == was.(working := was.working.(reservations := grown), dirty := true)
        else
          && r == (if was.working.reservations[key] == record then Ok(Unchanged) else Err(Conflict(ReservationEntity)))
          && View() == was
    {
      if finalized {
        return Err(TransactionFinalized);
      }
      var key := ScopedId(record.scope, record.reservationId);
      if key in working.reservations {
        if working.reservations[key] == record {
          return Ok(Unchanged);
        }
        return Err(Conflict(ReservationEntity));
      }
      working := working.(reservations := working.reservations[key := record]);
      dirty := true;
      r := Ok(Applied);
    }

    method AppendOutbox(record: OutboxRecord) returns (r: Result<MutationOutcome, StateError>)
      modifies this
      ensures (View(), Packed(r, o => Mutated(o))) == CallTxn(old(View()), Operation.AppendOutbox(record))
      ensures var was, key := old(View()), OutboxKey(record);
        if was.finalized then
          r == Err(TransactionFinalized) && View() == was
        else if key !in was.working.outbox then
          var grown, order := was.working.outbox[key := OutboxEntry(record, None)], was.working.outboxOrder + [key];
          && r == Ok(Applied)
          && View() == was.(working := was.working.(outbox := grown, outboxOrder := order), dirty := true)
        else
          && r == (if was.working.outbox[key].record == record then Ok(Unchanged) else Err(Conflict(OutboxEntity)))
          && View() == was
    {
      if finalized {
        return Err(TransactionFinalized);
      }
      var key := ScopedId(record.scope, record.outboxId);
      if key in working.outbox {
        if working.outbox[key].record == record {
          return Ok(Unchanged);
        }
        return Err(Conflict(OutboxEntity));
      }
      working := working.(outboxOrder := working.outboxOrder + [key]);
      working := working.(outbox := working.outbox[key := OutboxEntry(record, None)]);
      dirty := true;
      r := Ok(Applied);
    }

    method Outbox(scope: TenantScope, id: string) returns (r: Result<Option<OutboxEntry>, StateError>)
      modifies this
      ensures (View(), Packed(r, s => OutboxFound(s))) == CallTxn(old(View()), ReadOutbox(scope, id))
      ensures View() == old(View())
      ensures r == if finalized then Err(TransactionFinalized) else Ok(Lookup(working.outbox, ScopedId(scope, id)))
    {
      if finalized {
        return Err(TransactionFinalized);
      }
      r := Ok(Lookup(working.outbox, ScopedId(scope, id)));
    }

    method PendingOutbox(scope: TenantScope, limit: nat) returns (r: Result<seq<OutboxEntry>, StateError>)
      modifies this
      ensures (View(), Packed(r, s => Entries(s))) == CallTxn(old(View()), Operation.PendingOutbox(scope, limit))
      ensures r.Ok? ==> AreFirstPending(working, scope, limit, r.value)
      ensures View() == old(View())
      ensures r.Err? <==> finalized || limit == 0
      ensures r.Err? ==> r.error == if finalized then TransactionFinalized else InvalidArgument("outbox_limit")
    {
      if finalized {
        return Err(TransactionFinalized);
      }
      if limit == 0 {
        return Err(InvalidArgument("outbox_limit"));
      }
      var entries := FirstPending(working, scope, limit);
      r := Ok(entries);
    }

    method AcknowledgeOutbox(scope: TenantScope, id: string, acknowledgedAtMs: U64)
      returns (r: Result<MutationOutcome, StateError>)
      modifies this
      ensures (View(), Packed(r, o => Mutated(o)))
           == CallTxn(old(View()), Operation.AcknowledgeOutbox(scope, id, acknowledgedAtMs))
      ensures var was, key := old(View()), ScopedId(scope, id);
        if was.finalized then
          r == Err(TransactionFinalized) && View() == was
        else if key !in was.working.outbox then
          r == Err(NotFound(OutboxEntity)) && View() == was
        else if was.working.outbox[key].acknowledgedAtMs.Some? then
          r == Ok(Unchanged) && View() == was
        else if acknowledgedAtMs < was.working.outbox[key].record.occurredAtMs then
          r == Err(InvalidArgument("outbox_acknowledged_at_ms")) && View() == was
        else
          var entry := OutboxEntry(was.working.outbox[key].record, Some(acknowledgedAtMs));
          && r == Ok(Applied)
          && View() == was.(working := was.working.(outbox := was.working.outbox[key := entry]), dirty := true)
    {
      if finalized {
        return Err(TransactionFinalized);
      }
      var key := ScopedId(scope, id);
      if key !in working.outbox {
        return Err(NotFound(OutboxEntity));
      }
      var acknowledged :- working.outbox[key].Acknowledged(acknowledgedAtMs);
      working := working.(outbox := working.outbox[key := acknowledged.0]);
      if acknowledged.1 == Applied {
        dirty := true;
      }
      r := Ok(acknowledged.1);
    }

    method Commit() returns (r: Result<(), StateError>)
      modifies this, shared
      ensures (shared.inner, View(), Packed(r, u => Finished)) == CommitTxn(old(shared.inner), old(View()))
      ensures var was, inner := old(View()), old(shared.inner);
        if was.finalized then
          r == Err(TransactionFinalized) && View() == was && shared.inner == inner
        else if !was.dirty then
          r == Ok(()) && View() == was.(finalized := true) && shared.inner == inner
        else if inner.generation == was.baseGeneration < U64_MAX then
          var published := was.working.(generation := was.baseGeneration + 1);
          r == Ok(()) && View() == was.(working := published, finalized := true) && shared.inner == published
        else
          r == Err(Conflict(TransactionEntity)) && View() == was.(finalized := true) && shared.inner == inner
    {
      if finalized {
        return Err(TransactionFinalized);
      }
      finalized := true;
      if !dirty {
        return Ok(());
      }
      if shared.inner.generation != baseGeneration {
        return Err(Conflict(TransactionEntity));
      }
      if shared.inner.generation == U64_MAX {
        return Err(Conflict(TransactionEntity));
      }
      working := working.(generation := shared.inner.generation + 1);
      shared.inner := working;
      r := Ok(());
    }

    method Rollback() returns (r: Result<(), StateError>)
      modifies this
      ensures (View(), Packed(r, u => Finished)) == RollbackTxn(old(View()))
      ensures r == (if old(finalized) then Err(TransactionFinalized) else Ok(()))
      ensures View() == old(View()).(finalized := true)
    {
      if finalized {
        return Err(TransactionFinalized);
      }
      finalized := true;
      r := Ok(());
    }
  }
}
